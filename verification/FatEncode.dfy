/** The byte loops of emake and read_entry_name in kernel/fat32.c and of snstr in
    kernel/string.c, proved against the slots of FatNames. */
module FatEncode {
  import opened FatData
  import opened FatNames
  import opened FatListing

  /** Upper case, and an underscore for what a short name may not contain. */
  function ShortChar(c: byte): byte
  {
    if 0x61 <= c <= 0x7a then c - 0x20
    else if c == 0x2b || c == 0x2c || c == 0x3b || c == 0x3d || c == 0x5b || c == 0x5d then 0x5f
    else c
  }

  const BLANK: byte := 0x20
  const DOT_CHAR: byte := 0x2e

  /** What of a part of a name goes into a short name: all but blanks and dots. */
  function Kept(s: seq<byte>): (k: seq<byte>)
    ensures |k| <= |s| && forall x :: 0 <= x < |k| ==> k[x] == ShortChar(k[x]) != DOT_CHAR && k[x] != BLANK
  {
    if s == [] then []
    else
      var c := s[|s| - 1];
      Kept(s[..|s| - 1]) + if c == BLANK || c == DOT_CHAR then [] else [ShortChar(c)]
  }

  lemma KeptNext(s: seq<byte>, from: int, pos: int)
    requires 0 <= from <= pos < |s|
    ensures var c := s[pos];
      Kept(s[from..pos + 1]) == Kept(s[from..pos]) + if c == BLANK || c == DOT_CHAR then [] else [ShortChar(c)]
  {
    assert s[from..pos + 1][..pos - from] == s[from..pos];
  }

  lemma KeptNothing()
    ensures Kept([]) == []
  {
  }

  /** The beginning of a name keeps the beginning. */
  lemma {:induction false} KeptPrefix(s: seq<byte>, k: int)
    requires 0 <= k <= |s|
    ensures Kept(s[..k]) <= Kept(s)
    decreases |s|
  {
    if k < |s| {
      KeptPrefix(s[..|s| - 1], k);
      assert s[..|s| - 1][..k] == s[..k];
    } else {
      assert s[..k] == s;
    }
  }

  /** The position of the last dot, or the length if there is none. */
  function LastDot(s: seq<byte>, j: int): (d: int)
    requires 0 <= j <= |s| && forall x :: j <= x < |s| ==> s[x] != DOT_CHAR
    ensures 0 <= d <= |s| && (d < |s| ==> s[d] == DOT_CHAR) && forall x :: d < x < |s| ==> s[x] != DOT_CHAR
    ensures d == |s| ==> forall x :: 0 <= x < |s| ==> s[x] != DOT_CHAR
  {
    if j == 0 then |s| else if s[j - 1] == DOT_CHAR then j - 1 else LastDot(s, j - 1)
  }

  /** The first n bytes, filled up with blanks. */
  function Padded(s: seq<byte>, n: int): (f: seq<byte>)
    requires 0 <= n
    ensures |f| == n && forall x :: 0 <= x < n ==> f[x] == if x < |s| then s[x] else BLANK
  {
    seq(n, x => if 0 <= x < |s| then s[x] else BLANK)
  }

  /** The short form of a name: eight characters from in front of the last dot, three from behind. */
  function ShortForm(name: seq<byte>): (s: seq<byte>)
    ensures |s| == CHAR_SHORT_NAME
  {
    var d := LastDot(name, |name|);
    Padded(Kept(name[..d]), 8) + Padded(Kept(if d < |name| then name[d + 1..] else []), 3)
  }

  lemma {:induction false} KeptBytes(s: seq<byte>)
    requires forall x :: 0 <= x < |s| ==> s[x] != 0
    ensures forall x :: 0 <= x < |Kept(s)| ==> Kept(s)[x] != 0
  {
    if s != [] { KeptBytes(s[..|s| - 1]); }
  }

  lemma KeptFirst(name: seq<byte>, d: int)
    requires 0 < d <= |name| && name[0] != BLANK && name[0] != DOT_CHAR
    ensures Kept(name[..d]) != [] && Kept(name[..d])[0] == ShortChar(name[0])
  {
    assert name[..d][..1] == [name[0]] && [name[0]][..0] == [];
    KeptPrefix(name[..d], 1);
    assert Kept([name[0]]) == Kept([]) + [ShortChar(name[0])];
  }

  /** A short form holds no zero byte, and begins like the name. */
  lemma ShortForms(name: seq<byte>)
    requires IsName(name)
    ensures forall x :: 0 <= x < CHAR_SHORT_NAME ==> ShortForm(name)[x] != 0
    ensures name[0] != BLANK && name[0] != DOT_CHAR ==> ShortForm(name)[0] == ShortChar(name[0])
  {
    var d := LastDot(name, |name|);
    KeptBytes(name[..d]);
    KeptBytes(if d < |name| then name[d + 1..] else []);
    if name[0] != BLANK && name[0] != DOT_CHAR { KeptFirst(name, d); }
    hide Kept, LastDot;
  }

  /** The bytes a short name may hold as they are, or in another form. */
  predicate Whole(s: seq<byte>)
  {
    forall x :: 0 <= x < |s| ==> s[x] != 0 && s[x] != BLANK && s[x] != DOT_CHAR
  }

  lemma {:induction false} KeptWhole(s: seq<byte>)
    requires Whole(s)
    ensures |Kept(s)| == |s| && forall x :: 0 <= x < |s| ==> Kept(s)[x] == ShortChar(s[x])
    decreases |s|
  {
    if s != [] { KeptWhole(s[..|s| - 1]); }
  }

  lemma {:induction false} WordPadded(s: seq<byte>, f: seq<byte>)
    requires |s| <= |f| && f[..|s|] == s && (forall x :: 0 <= x < |s| ==> s[x] != BLANK) && (|s| < |f| ==> f[|s|] == BLANK)
    ensures Word0(f) == s
    decreases |s|
  {
    if s != [] {
      assert f[0] == s[0] && f[1..][..|s| - 1] == s[1..];
      WordPadded(s[1..], f[1..]);
    }
  }

  lemma {:induction false} DotPlace(base: seq<byte>, ext: seq<byte>, j: int)
    requires Whole(base) && Whole(ext) && |base| < j <= |base| + 1 + |ext|
    ensures LastDot(base + [DOT_CHAR] + ext, j) == |base|
    decreases j
  {
    var name := base + [DOT_CHAR] + ext;
    assert forall x :: |base| < x < |name| ==> name[x] == ext[x - |base| - 1];
    if j > |base| + 1 { DotPlace(base, ext, j - 1); }
  }

  lemma {:induction false} NoDot(base: seq<byte>, j: int)
    requires Whole(base) && 0 <= j <= |base|
    ensures LastDot(base, j) == |base|
    decreases j
  {
    if j > 0 { NoDot(base, j - 1); }
  }

  function Upto(s: seq<byte>, n: nat): seq<byte> { if |s| <= n then s else s[..n] }

  function DotExt(ext: seq<byte>): seq<byte> { if ext == [] then [] else [DOT_CHAR] + ext }

  /** The capital form of a byte, written out. */
  ghost predicate Capital(c: byte, u: byte)
  {
    if 'a' as int <= c <= 'z' as int then u == c - 'a' as int + 'A' as int
    else if c in {'+' as int, ',' as int, ';' as int, '=' as int, '[' as int, ']' as int} then u == '_' as int
    else u == c
  }

  /** What read_entry_name reads from the short entry alone of a name made of a base and an
      extension: the first eight bytes of the one and the first three of the other, a dot between
      them, in capitals. */
  lemma ShortReadBack(base: seq<byte>, ext: seq<byte>, attr: byte, clus: int, size: int)
    requires Whole(base) && Whole(ext) && base != [] && 0 <= clus < 0x1_0000_0000 && 0 <= size < 0x1_0000_0000
    ensures var r := ShortName(ShortSlot(ShortForm(base + DotExt(ext)), attr, clus, size));
            var kept := Upto(base, 8) + DotExt(Upto(ext, 3));
            Capitals(kept, r)
  {
    hide ShortSlot, ShortForm, Word0, Capitals, Clus, Size;
    var f := ShortForm(base + DotExt(ext));
    var s := ShortSlot(f, attr, clus, size);
    ShortSlotFields(f, attr, clus, size);
    var b, e := FormOf(base, ext);
    assert s[..8] == s[..11][..8] && s[8..11] == s[..11][8..];
    WordPadded(b, s[..8]);
    WordPadded(e, s[8..11]);
    assert s[8] == s[8..11][0];
    assert e != [] ==> s[8] == e[0];
    assert ShortName(s) == b + DotExt(e);
    CapitalsJoined(Upto(base, 8), Upto(ext, 3), b, e);
  }

  /** The two fields of the short form. */
  lemma FormOf(base: seq<byte>, ext: seq<byte>) returns (b: seq<byte>, e: seq<byte>)
    requires Whole(base) && Whole(ext) && base != []
    ensures b == Upto(Kept(base), 8) && e == Upto(Kept(ext), 3)
    ensures var f := ShortForm(base + DotExt(ext));
      && Capitals(Upto(base, 8), b) && Capitals(Upto(ext, 3), e) && Whole(b) && Whole(e)
      && |b| <= 8 && |e| <= 3 && (e == [] <==> ext == []) && f[..8][..|b|] == b && f[8..][..|e|] == e
      && (|b| < 8 ==> f[..8][|b|] == BLANK) && (|e| < 3 ==> f[8..][|e|] == BLANK)
  {
    hide Kept, LastDot, ShortForm, Padded, Capitals, Whole;
    KeptWhole(base);
    KeptWhole(ext);
    FormParts(base, ext);
    PaddedUpto(Kept(base), 8);
    PaddedUpto(Kept(ext), 3);
    b, e := Upto(Kept(base), 8), Upto(Kept(ext), 3);
    CapitalsOf(base, 8);
    CapitalsOf(ext, 3);
  }

  lemma FormParts(base: seq<byte>, ext: seq<byte>)
    requires Whole(base) && Whole(ext) && base != []
    ensures var f := ShortForm(base + DotExt(ext)); f[..8] == Padded(Kept(base), 8) && f[8..] == Padded(Kept(ext), 3)
  {
    var name := base + DotExt(ext);
    if ext == [] {
      assert name == base;
      NoDot(base, |base|);
    } else {
      assert name == base + [DOT_CHAR] + ext;
      DotPlace(base, ext, |name|);
    }
    assert name[..LastDot(name, |name|)] == base && (ext != [] ==> name[|base| + 1..] == ext);
    hide Kept, LastDot;
  }

  lemma PaddedUpto(s: seq<byte>, n: nat)
    ensures var p, u := Padded(s, n), Upto(s, n); |u| <= n && p[..|u|] == u && (|u| < n ==> p[|u|] == BLANK)
  {
  }

  lemma CapitalsJoined(s: seq<byte>, t: seq<byte>, u: seq<byte>, v: seq<byte>)
    requires Capitals(s, u) && Capitals(t, v)
    ensures Capitals(s + DotExt(t), u + DotExt(v))
  {
  }

  ghost predicate Capitals(s: seq<byte>, u: seq<byte>)
  {
    |u| == |s| && forall i :: 0 <= i < |s| ==> Capital(s[i], u[i])
  }

  lemma CapitalsOf(s: seq<byte>, n: nat)
    requires Whole(s) && |Kept(s)| == |s| && forall x :: 0 <= x < |s| ==> Kept(s)[x] == ShortChar(s[x])
    ensures Capitals(Upto(s, n), Upto(Kept(s), n)) && Whole(Upto(Kept(s), n))
  {
    hide Kept;
  }

  /** Of the short form the first i bytes are there, and the others are blanks. */
  ghost predicate Begun(name: seq<byte>, short: seq<byte>, i: int)
  {
    && 0 <= i <= CHAR_SHORT_NAME == |short| && short[..i] == ShortForm(name)[..i]
    && forall x :: i <= x < CHAR_SHORT_NAME ==> ShortForm(name)[x] == BLANK
  }

  /** In front of the last dot, having looked at pos characters. */
  ghost predicate InBase(name: seq<byte>, short: seq<byte>, i: int, pos: int)
  {
    var d := LastDot(name, |name|);
    0 <= pos <= d && 0 <= i <= 8 && |short| == CHAR_SHORT_NAME && short[..i] == Kept(name[..pos])
  }

  /** Behind it. */
  ghost predicate InExtension(name: seq<byte>, short: seq<byte>, i: int, pos: int)
  {
    var d := LastDot(name, |name|);
    && d < |name| && d + 1 <= pos <= |name| && 8 <= i <= CHAR_SHORT_NAME == |short|
    && short[..8] == Padded(Kept(name[..d]), 8) && short[8..i] == Kept(name[d + 1..pos])
  }

  lemma BaseNext(name: seq<byte>, short: seq<byte>, i: int, pos: int)
    requires InBase(name, short, i, pos) && i < 8 && pos < LastDot(name, |name|)
    ensures if name[pos] == BLANK || name[pos] == DOT_CHAR then InBase(name, short, i, pos + 1)
            else InBase(name, short[i := ShortChar(name[pos])], i + 1, pos + 1)
  {
    hide Kept, LastDot, ShortChar;
    KeptNext(name, 0, pos);
    assert name[0..pos + 1] == name[..pos + 1] && name[0..pos] == name[..pos];
    var c := ShortChar(name[pos]);
    assert short[i := c][..i + 1] == short[..i] + [c];
  }

  lemma ExtensionNext(name: seq<byte>, short: seq<byte>, i: int, pos: int)
    requires InExtension(name, short, i, pos) && i < CHAR_SHORT_NAME && pos < |name|
    ensures name[pos] != DOT_CHAR
    ensures if name[pos] == BLANK then InExtension(name, short, i, pos + 1)
            else InExtension(name, short[i := ShortChar(name[pos])], i + 1, pos + 1)
  {
    hide Kept, LastDot, ShortChar, Padded;
    var d, c := LastDot(name, |name|), ShortChar(name[pos]);
    KeptNext(name, d + 1, pos);
    assert short[i := c][..8] == short[..8] && short[i := c][8..i + 1] == short[8..i] + [c];
  }

  /** At the last dot, or with eight characters, the base is complete. */
  lemma BaseDone(name: seq<byte>, short: seq<byte>, i: int, pos: int)
    requires InBase(name, short, i, pos) && (i == 8 || pos == LastDot(name, |name|))
    ensures Padded(Kept(name[..LastDot(name, |name|)]), 8) == short[..i] + Padded([], 8 - i)
  {
    hide Kept, LastDot, ShortChar;
    var d := LastDot(name, |name|);
    KeptPrefix(name[..d], pos);
    assert name[..d][..pos] == name[..pos];
  }

  lemma EnterExtension(name: seq<byte>, short: seq<byte>, short': seq<byte>, i: int, pos: int)
    requires InBase(name, short, i, pos) && (i == 8 || pos == LastDot(name, |name|)) && LastDot(name, |name|) < |name|
    requires |short'| == CHAR_SHORT_NAME && short'[..8] == short[..i] + Padded([], 8 - i)
    ensures InExtension(name, short', 8, LastDot(name, |name|) + 1)
  {
    hide Kept, LastDot, Padded;
    BaseDone(name, short, i, pos);
    KeptNothing();
    var d := LastDot(name, |name|);
    assert short'[8..8] == [] && name[d + 1..d + 1] == [];
  }

  lemma BaseOnly(name: seq<byte>, short: seq<byte>, i: int, pos: int)
    requires InBase(name, short, i, pos) && LastDot(name, |name|) == |name| && (i == 8 || pos == |name|)
    ensures Begun(name, short, i)
  {
    hide Kept, LastDot;
    BaseDone(name, short, i, pos);
    KeptNothing();
  }

  lemma ExtensionOver(name: seq<byte>, short: seq<byte>, i: int, pos: int)
    requires InExtension(name, short, i, pos) && (i == CHAR_SHORT_NAME || pos == |name|)
    ensures Begun(name, short, i)
  {
    hide Padded;
    var d := LastDot(name, |name|);
    var e := name[d + 1..];
    KeptPrefix(e, pos - (d + 1));
    assert e[..pos - (d + 1)] == name[d + 1..pos];
    assert short[..i] == short[..8] + short[8..i];
    if pos == |name| { assert name[d + 1..pos] == e; }
    hide Kept, LastDot;
  }

  lemma BlankNext(name: seq<byte>, short: seq<byte>, i: int)
    requires Begun(name, short, i) && i < CHAR_SHORT_NAME
    ensures Begun(name, short[i := BLANK], i + 1)
  {
    hide ShortForm;
    assert short[i := BLANK][..i + 1] == short[..i] + [BLANK];
    assert ShortForm(name)[..i + 1] == ShortForm(name)[..i] + [ShortForm(name)[i]];
  }

  lemma AllThere(name: seq<byte>, short: seq<byte>)
    requires Begun(name, short, CHAR_SHORT_NAME)
    ensures short == ShortForm(name)
  {
    assert short[..CHAR_SHORT_NAME] == short && ShortForm(name)[..CHAR_SHORT_NAME] == ShortForm(name);
    hide ShortForm;
  }

  lemma Starting(name: seq<byte>, short: seq<byte>)
    requires |short| == CHAR_SHORT_NAME
    ensures InBase(name, short, 0, 0)
  {
    assert short[..0] == [] && name[..0] == [];
    hide LastDot;
  }

  /** generate_shortname.  p is the position of the last dot (or 0 if there is none), and -1
      for NULL.  The memset in it never gets a negative length. */
  method GenerateShortname(name: seq<byte>) returns (short: seq<byte>)
    requires IsName(name)
    ensures short == ShortForm(name)
  {
    hide Kept, ShortForm, InBase, InExtension, Begun;
    short := Zeros(CHAR_SHORT_NAME);
    var i, pos, p := 0, 0, 0;
    var j := |name| - 1;
    while j >= 0
      invariant -1 <= j < |name| && p == 0 && (forall x :: j < x < |name| ==> name[x] != DOT_CHAR)
      invariant LastDot(name, |name|) == LastDot(name, j + 1)
    {
      if name[j] == DOT_CHAR {
        p := j;
        break;
      }
      j := j - 1;
    }
    ghost var d := LastDot(name, |name|);
    assert p == if d < |name| then d else 0;
    Starting(name, short);
    ghost var over := false;
    while i < CHAR_SHORT_NAME && pos < |name|
      invariant 0 <= i <= CHAR_SHORT_NAME == |short| && 0 <= pos <= |name|
      invariant p >= 0 ==> InBase(name, short, i, pos) && i <= 8 && i <= pos <= d && p == if d < |name| then d else 0
      invariant p < 0 ==> InExtension(name, short, i, pos) && i >= 8 && d < pos
      invariant !over
      decreases |name| - pos
    {
      hide LastDot;
      var c := name[pos];
      pos := pos + 1;
      if i == 8 && p >= 0 {
        if p + 1 < pos {
          BaseOnly(name, short, i, pos - 1);
          over := true;
          break;
        }
        assert short[..8] + Padded([], 0) == short[..8];
        EnterExtension(name, short, short, i, pos - 1);
        pos := p + 1;
        p := -1;
        continue;
      }
      if p >= 0 && pos - 1 < d { BaseNext(name, short, i, pos - 1); }
      if p < 0 { ExtensionNext(name, short, i, pos - 1); }
      if c == BLANK {
        continue;
      }
      if c == DOT_CHAR {
        if pos > p {
          ghost var before := short;
          short := Patched(short, i, seq<byte>(8 - i, _ => BLANK));
          EnterExtension(name, before, short, i, pos - 1);
          i := 8;
          p := -1;
        }
        continue;
      }
      short := short[i := ShortChar(c)];
      i := i + 1;
    }
    if !over {
      if p >= 0 { BaseOnly(name, short, i, pos); } else { ExtensionOver(name, short, i, pos); }
    }
    while i < CHAR_SHORT_NAME
      invariant i <= CHAR_SHORT_NAME == |short| && Begun(name, short, i)
    {
      BlankNext(name, short, i);
      short := short[i := BLANK];
      i := i + 1;
    }
    AllThere(name, short);
  }

  /** A byte rotated right by one. */
  function Rotated(s: byte): (r: int)
    ensures 0 <= r < 0x100
  {
    (if s % 2 == 1 then 0x80 else 0) + s / 2
  }

  /** The checksum of a short name: rotate right by one, add, in eight bits. */
  function Checksum(short: seq<byte>, n: int): byte
    requires 0 <= n <= |short|
  {
    if n == 0 then 0
    else
      (Rotated(Checksum(short, n - 1)) + short[n - 1]) % 0x100
  }

  /** The number with these eight bits, the lowest first. */
  function OfBits(b: seq<int>): int
    requires |b| == 8
  {
    b[0] + 2 * b[1] + 4 * b[2] + 8 * b[3] + 16 * b[4] + 32 * b[5] + 64 * b[6] + 128 * b[7]
  }

  /** Each bit moves one place down, the lowest to the top. */
  lemma RotatedBits(b: seq<int>)
    requires |b| == 8 && forall i :: 0 <= i < 8 ==> b[i] == 0 || b[i] == 1
    ensures 0 <= OfBits(b) < 0x100 && Rotated(OfBits(b)) == OfBits(b[1..] + [b[0]])
  {
    assert OfBits(b) % 2 == b[0] && OfBits(b) == 2 * (OfBits(b) / 2) + b[0];
  }

  /** The bytes are taken in order: a bit in the first of three comes to lie two places further. */
  lemma ChecksumFirst()
    ensures Checksum([1, 0, 0], 3) == 0x40
  {
    assert Checksum([1, 0, 0], 1) == 1 && Checksum([1, 0, 0], 2) == 0x80;
  }

  lemma RotatedOnce(s: byte, t: byte)
    requires Rotated(s) == Rotated(t)
    ensures s == t
  {
    assert s == 2 * (s / 2) + s % 2 && t == 2 * (t / 2) + t % 2;
  }

  lemma AddedOnce(u: int, v: int, c: int, d: int)
    requires 0 <= u < 0x100 && 0 <= v < 0x100 && 0 <= c < 0x100 && 0 <= d < 0x100 && (u + c) % 0x100 == (v + d) % 0x100
    ensures u == v <==> c == d
  {
    var q, q' := (u + c) / 0x100, (v + d) / 0x100;
    assert u + c - (v + d) == 0x100 * (q - q');
  }

  /** Every byte reaches the sum: names that differ in one place have different checksums. */
  lemma {:induction false} ChecksumSees(a: seq<byte>, b: seq<byte>, n: int, i: int)
    requires |a| == |b| && 0 <= i < n <= |a| && a[i] != b[i] && forall k :: 0 <= k < |a| && k != i ==> a[k] == b[k]
    ensures Checksum(a, n) != Checksum(b, n)
  {
    if i < n - 1 {
      ChecksumSees(a, b, n - 1, i);
      var s, t := Checksum(a, n - 1), Checksum(b, n - 1);
      if Rotated(s) == Rotated(t) { RotatedOnce(s, t); }
      if Checksum(a, n) == Checksum(b, n) { AddedOnce(Rotated(s), Rotated(t), a[n - 1], b[n - 1]); }
    } else {
      ChecksumSame(a, b, n - 1);
      var s := Checksum(a, n - 1);
      if Checksum(a, n) == Checksum(b, n) { AddedOnce(Rotated(s), Rotated(s), a[i], b[i]); }
    }
  }

  lemma {:induction false} ChecksumSame(a: seq<byte>, b: seq<byte>, n: int)
    requires 0 <= n <= |a| && n <= |b| && forall k :: 0 <= k < n ==> a[k] == b[k]
    ensures Checksum(a, n) == Checksum(b, n)
  {
    if n > 0 { ChecksumSame(a, b, n - 1); }
  }

  method CalChecksum(short: seq<byte>) returns (sum: byte)
    requires |short| == CHAR_SHORT_NAME
    ensures sum == Checksum(short, CHAR_SHORT_NAME)
  {
    sum := 0;
    var i := CHAR_SHORT_NAME;
    while i != 0
      invariant 0 <= i <= CHAR_SHORT_NAME && sum == Checksum(short, CHAR_SHORT_NAME - i)
    {
      var s: int := sum;
      sum := ((if s % 2 == 1 then 0x80 else 0) + s / 2 + short[CHAR_SHORT_NAME - i]) % 0x100;
      i := i - 1;
    }
  }

  /** Where emake's pointer w stands for the j-th of the thirteen characters. */
  function Place(j: int): int
  {
    if j <= 5 then 1 + 2 * (j - 1) else if j <= 11 then 14 + 2 * (j - 6) else 28 + 2 * (j - 12)
  }

  /** The characters in front of the j-th are in place, and the other fields are as in was. */
  ghost predicate Filled(de: Slot, was: Slot, r: Record, i: int, j: int)
  {
    && (forall x :: 0 <= x < SLOT && x in {0, 11, 12, 13, 26, 27} ==> de[x] == was[x])
    && (forall c {:trigger Placed(de, r, i, c)} :: c < j ==> Placed(de, r, i, c))
  }

  /** One more character, of which lo and hi are the two bytes. */
  lemma FilledMore(de: Slot, was: Slot, r: Record, i: int, j: int, lo: byte, hi: byte)
    requires Filled(de, was, r, i, j) && 1 <= j <= CHAR_LONG_NAME
    requires lo == WideByte(r.name, (i - 1) * CHAR_LONG_NAME + j - 1, 0) && hi == WideByte(r.name, (i - 1) * CHAR_LONG_NAME + j - 1, 1)
    ensures 0 <= Place(j) < SLOT - 1 && Filled(de[Place(j) := lo][Place(j) + 1 := hi], was, r, i, j + 1)
  {
    hide WideByte;
    PlaceIn(j);
    var de' := de[Place(j) := lo][Place(j) + 1 := hi];
    forall c | c < j + 1 ensures Placed(de', r, i, c) {
      assert c < j ==> Placed(de, r, i, c);
      if 1 <= c < j { PlacesApart(c, j); }
    }
  }

  lemma PlaceIn(j: int)
    requires 1 <= j <= CHAR_LONG_NAME
    ensures 1 <= Place(j) < SLOT - 1 && Place(j) !in {0, 11, 12, 13, 26, 27} && Place(j) + 1 !in {0, 11, 12, 13, 26, 27}
  {
  }

  /** emake's inner loop: the i-th long entry of a name, from the slot of the entry before. */
  method FillLong(was: Slot, r: Record, sum: byte, i: int) returns (de: Slot)
    requires r.Valid() && 1 <= i <= r.Longs()
    requires was[11] == ATTR_LONG_NAME && was[12] == 0 && was[13] == sum && was[26] == 0 && was[27] == 0
    ensures de == LongSlot(r, sum, i)
  {
    hide WideByte, LongSlot, Filled, Placed;
    de := was;
    de := de[0 := i];
    if i == r.Longs() {
      de := de[0 := i + LAST_LONG_ENTRY];
    }
    ghost var start := de;
    NoneFilled(start, r, i);
    var p := (i - 1) * CHAR_LONG_NAME;
    var w := 1;
    var end := false;
    var j := 1;
    while j <= CHAR_LONG_NAME
      invariant 1 <= j <= CHAR_LONG_NAME + 1 && w == (if j <= CHAR_LONG_NAME then Place(j) else SLOT)
      invariant end <==> (i - 1) * CHAR_LONG_NAME + (j - 1) > |r.name|
      invariant !end ==> p == (i - 1) * CHAR_LONG_NAME + (j - 1)
      invariant Filled(de, start, r, i, j)
    {
      WideAt(r, (i - 1) * CHAR_LONG_NAME + j - 1);
      PlaceIn(j);
      if end {
        FilledMore(de, start, r, i, j, 0xff, 0xff);
        de := de[w := 0xff][w + 1 := 0xff];
      } else {
        var c: byte := if p < |r.name| then r.name[p] else 0;
        FilledMore(de, start, r, i, j, c, 0);
        p := p + 1;
        de := de[w := c];
        if c == 0 {
          end := true;
        }
        de := de[w + 1 := 0];
      }
      w := w + 2;
      if j == 5 {
        w := 14;
      } else if j == 11 {
        w := 28;
      }
      j := j + 1;
    }
    Complete(de, start, r, sum, i);
  }

  lemma NoneFilled(was: Slot, r: Record, i: int)
    ensures Filled(was, was, r, i, 1)
  {
  }

  /** The two bytes of the wide character at position k of the name. */
  lemma WideAt(r: Record, k: int)
    requires 0 <= k
    ensures k < |r.name| ==> WideByte(r.name, k, 0) == r.name[k] && WideByte(r.name, k, 1) == 0
    ensures k == |r.name| ==> WideByte(r.name, k, 0) == 0 && WideByte(r.name, k, 1) == 0
    ensures k > |r.name| ==> WideByte(r.name, k, 0) == 0xff && WideByte(r.name, k, 1) == 0xff
  {
  }

  ghost predicate Placed(de: Slot, r: Record, i: int, c: int)
  {
    1 <= c <= CHAR_LONG_NAME ==>
      && de[Place(c)] == WideByte(r.name, (i - 1) * CHAR_LONG_NAME + c - 1, 0)
      && de[Place(c) + 1] == WideByte(r.name, (i - 1) * CHAR_LONG_NAME + c - 1, 1)
  }

  /** The places of the thirteen characters do not overlap, nor the other fields. */
  lemma PlacesApart(c: int, d: int)
    requires 1 <= c < d <= CHAR_LONG_NAME
    ensures Place(c) + 1 < Place(d) && 1 <= Place(c) && Place(d) + 1 < SLOT
    ensures Place(c) !in {11, 12, 13, 26, 27} && Place(c) + 1 !in {11, 12, 13, 26, 27}
    ensures Place(d) !in {11, 12, 13, 26, 27} && Place(d) + 1 !in {11, 12, 13, 26, 27}
  {
  }

  /** Byte p of a slot is a header byte or half of the place of a character. */
  lemma PlaceOf(p: int) returns (c: int, h: int)
    requires 1 <= p < SLOT && p !in {11, 12, 13, 26, 27}
    ensures 1 <= c <= CHAR_LONG_NAME && 0 <= h <= 1 && p == Place(c) + h
    ensures p < 11 ==> c - 1 == (p - 1) / 2 && h == (p - 1) % 2
    ensures 14 <= p < 26 ==> c - 1 == 5 + (p - 14) / 2 && h == (p - 14) % 2
    ensures 28 <= p ==> c - 1 == 11 + (p - 28) / 2 && h == (p - 28) % 2
  {
    if p < 11 {
      c, h := (p - 1) / 2 + 1, (p - 1) % 2;
    } else if p < 26 {
      c, h := (p - 14) / 2 + 6, (p - 14) % 2;
    } else {
      c, h := (p - 28) / 2 + 12, (p - 28) % 2;
    }
  }

  lemma Complete(de: Slot, was: Slot, r: Record, sum: byte, i: int)
    requires r.Valid() && 1 <= i <= r.Longs() && Filled(de, was, r, i, CHAR_LONG_NAME + 1)
    requires was[0] == LongByte(r, sum, i, 0) && was[11] == ATTR_LONG_NAME && was[12] == 0 && was[13] == sum && was[26] == 0 && was[27] == 0
    ensures de == LongSlot(r, sum, i)
  {
    hide WideByte, Place;
    var s := LongSlot(r, sum, i);
    forall p | 0 <= p < SLOT ensures de[p] == s[p] {
      assert s[p] == LongByte(r, sum, i, p);
      if p >= 1 && p !in {11, 12, 13, 26, 27} {
        var c, h := PlaceOf(p);
        assert Placed(de, r, i, c);
      }
    }
  }

  lemma SnstrStep(buf: seq<byte>, at: int, ws: seq<int>)
    requires 0 <= at && at + |ws| <= |buf| && forall i :: 0 <= i < |ws| ==> ws[i] >= 0
    ensures ws == [] ==> Snstr(buf, at, ws) == buf
    ensures ws != [] && ws[0] == 0 ==> Snstr(buf, at, ws) == Patched(buf, at, Zeros(|ws| - 1))
    ensures ws != [] && ws[0] != 0 ==> Snstr(buf, at, ws) == Snstr(buf[at := ws[0] % 0x100], at + 1, ws[1..])
  {
  }

  /** snstr */
  method SnstrLoop(buf: seq<byte>, at: int, ws: seq<int>) returns (dst: seq<byte>)
    requires 0 <= at && at + |ws| <= |buf| && forall i :: 0 <= i < |ws| ==> ws[i] >= 0
    ensures dst == Snstr(buf, at, ws)
  {
    hide Snstr, Patched, Zeros;
    dst := buf;
    var len, k, w := |ws|, 0, at;
    var go := true;
    while go
      invariant 0 <= k <= |ws| && |dst| == |buf| && w == at + k && (go ==> len == |ws| - k)
      invariant go ==> Snstr(buf, at, ws) == Snstr(dst, w, ws[k..])
      invariant !go ==> if k == |ws| then len == -1 && Snstr(buf, at, ws) == dst
                        else len == |ws| - k - 1 && Snstr(buf, at, ws) == Patched(dst, w, Zeros(len))
      decreases go, |ws| - k
    {
      SnstrStep(dst, w, ws[k..]);
      len := len - 1;
      if len + 1 != 0 && ws[k] != 0 {
        dst := dst[w := ws[k] % 0x100];
        assert ws[k..][1..] == ws[k + 1..];
        k, w := k + 1, w + 1;
      } else {
        go := false;
      }
    }
    if len > 0 {
      dst := ClearRest(dst, w, len);
    } else if len == 0 {
      NoPatch(dst, w);
    }
  }

  lemma NoPatch(dst: seq<byte>, w: int)
    requires 0 <= w <= |dst|
    ensures Patched(dst, w, Zeros(0)) == dst
  {
  }

  /** The second loop of snstr. */
  method ClearRest(buf: seq<byte>, at: int, n: int) returns (dst: seq<byte>)
    requires 0 <= at && 0 <= n && at + n <= |buf|
    ensures dst == Patched(buf, at, Zeros(n))
  {
    dst := buf;
    var len, w := n, at;
    while len > 0
      invariant 0 <= len <= n && w == at + n - len && |dst| == |buf|
      invariant forall x :: 0 <= x < |buf| ==> dst[x] == if at <= x < w then 0 else buf[x]
    {
      dst := dst[w := 0];
      len, w := len - 1, w + 1;
    }
  }

  /** read_entry_name: a long entry's part of the name at position at, or a short entry's name
      at the start of the buffer. */
  method ReadEntryName(buf: seq<byte>, at: int, s: Slot) returns (b: seq<byte>)
    requires |buf| == NAME_BUF && 0 <= at && at + CHAR_LONG_NAME <= |buf|
    ensures b == if s[11] == ATTR_LONG_NAME then ReadLong(buf, at, s) else ReadShort(buf, s)
  {
    hide Snstr, Patched, Word0;
    if s[11] == ATTR_LONG_NAME {
      b := SnstrLoop(buf, at, Wide(s, 1, 5));
      b := SnstrLoop(b, at + 5, Wide(s, 14, 6));
      b := SnstrLoop(b, at + 11, Wide(s, 28, 2));
    } else {
      b := ReadShortName(buf, s);
    }
  }

  /** A field copied behind the bytes in front of at, up to its first blank. */
  method CopyField(ghost clear: seq<byte>, ghost name: seq<byte>, buf: seq<byte>, at: int, field: seq<byte>) returns (b: seq<byte>, i: int)
    requires at == |name| && |name| + |field| <= |clear| && buf == Patched(clear, 0, name)
    ensures b == Patched(clear, 0, name + Word0(field)) && i == at + |Word0(field)|
  {
    hide Word0, Patched;
    b, i := buf, at;
    var j := 0;
    WordStep(field, 0);
    assert field[0..] == field && name + field[..0] == name;
    while j < |field| && field[j] != BLANK
      invariant 0 <= j <= |field| && i == at + j
      invariant b == Patched(clear, 0, name + field[..j]) && Word0(field) == field[..j] + Word0(field[j..])
    {
      WordStep(field, j);
      Extend(clear, name + field[..j], field[j]);
      assert field[..j + 1] == field[..j] + [field[j]];
      assert name + field[..j] + [field[j]] == name + field[..j + 1];
      b := b[i := field[j]];
      j, i := j + 1, i + 1;
    }
    WordStep(field, j);
    assert Word0(field) == field[..j];
  }

  lemma WordStep(s: seq<byte>, i: int)
    requires 0 <= i <= |s|
    ensures i < |s| && s[i] != BLANK ==> Word0(s[i..]) == [s[i]] + Word0(s[i + 1..])
    ensures i == |s| || s[i] == BLANK ==> Word0(s[i..]) == []
  {
    assert i < |s| ==> s[i..][1..] == s[i + 1..];
  }

  /** The short entry branch of read_entry_name. */
  method ReadShortName(buf: seq<byte>, s: Slot) returns (b: seq<byte>)
    requires |buf| == NAME_BUF
    ensures b == ReadShort(buf, s)
  {
    hide Word0, Patched;
    var i;
    b := Patched(buf, 0, Zeros(CHAR_SHORT_NAME + 2));
    ghost var clear, base := b, Word0(s[..8]);
    NoPatchAt(b);
    b, i := CopyField(clear, [], b, 0, s[..8]);
    assert [] + base == base;
    if s[8] != BLANK {
      Extend(clear, base, DOT_CHAR);
      b := b[i := DOT_CHAR];
      i := i + 1;
      b, i := CopyField(clear, base + [DOT_CHAR], b, i, s[8..11]);
      assert base + [DOT_CHAR] + Word0(s[8..11]) == base + ([DOT_CHAR] + Word0(s[8..11]));
    } else {
      assert base + [] == base;
    }
  }

  lemma NoPatchAt(b: seq<byte>)
    ensures Patched(b, 0, []) == b
  {
  }

  lemma Extend(clear: seq<byte>, name: seq<byte>, c: byte)
    requires |name| < |clear|
    ensures Patched(clear, 0, name)[|name| := c] == Patched(clear, 0, name + [c])
  {
  }
}
