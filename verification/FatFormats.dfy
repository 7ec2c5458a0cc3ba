/** The on-disk formats byte by byte, and which names fit them. */
module FatFormats {
  import opened Bytes
  import opened FatSlots
  import opened FatNames
  import opened FatAliases
  import opened FatImage
  import opened FatNaming
  import opened FatRename

  // ------------------------------------------------------------------- entries

  /** A short entry as it stands on the disk. */
  lemma EntryBytes(raw: Raw, attributes: Byte, first: nat, size: nat)
    requires first < 0x1_0000_0000 && size < 0x1_0000_0000
    ensures ShortEntry(raw, attributes, first, size) ==
            raw + [attributes] + Zeros(8) + Le(first / 0x1_0000, 2) + Zeros(4) + Le(first % 0x1_0000, 2) + Le(size, 4)
  {
    LeTwo(first / 0x1_0000);
    LeTwo(first % 0x1_0000);
    LeFour(size);
    ShortAt(raw, attributes, first, size);
    var s := ShortEntry(raw, attributes, first, size);
    hide *;
    forall k: nat | k < 32 ensures
      s[k] == (raw + [attributes] + Zeros(8) + Le(first / 0x1_0000, 2) + Zeros(4) + Le(first % 0x1_0000, 2)
               + Le(size, 4))[k]
    {
      PiecesAt(raw, attributes, Le(first / 0x1_0000, 2), Le(first % 0x1_0000, 2), Le(size, 4), k);
    }
  }

  lemma PiecesAt(raw: Raw, attributes: Byte, high: seq<Byte>, low: seq<Byte>, size: seq<Byte>, k: nat)
    requires |high| == 2 && |low| == 2 && |size| == 4 && k < 32
    ensures (raw + [attributes] + Zeros(8) + high + Zeros(4) + low + size)[k] ==
            if k < 11 then raw[k] else if k == 11 then attributes else if k < 20 then 0 else if k < 22 then high[k - 20]
            else if k < 26 then 0 else if k < 28 then low[k - 26] else size[k - 28]
  {
  }

  lemma ShortAt(raw: Raw, attributes: Byte, first: nat, size: nat)
    requires first < 0x1_0000_0000 && size < 0x1_0000_0000
    ensures var s := ShortEntry(raw, attributes, first, size);
            && (forall k: nat | k < 11 :: s[k] == raw[k]) && s[11] == attributes
            && (forall k: nat | 12 <= k < 20 || 22 <= k < 26 :: s[k] == 0)
            && s[20] == first / 0x1_0000 % 256 && s[21] == first / 0x1_0000 / 256 % 256
            && s[26] == first % 0x1_0000 % 256 && s[27] == first % 0x1_0000 / 256 % 256
            && s[28] == size % 256 && s[29] == size / 256 % 256 && s[30] == size / 256 / 256 % 256
            && s[31] == size / 256 / 256 / 256 % 256
  {
  }

  /** Cluster and size are read from the same places, whatever else the entry holds. */
  lemma EntryReads(s: Slot, high: nat, low: nat, size: nat)
    requires high < 0x1_0000 && low < 0x1_0000 && size < 0x1_0000_0000
    requires s[20..22] == Le(high, 2) && s[26..28] == Le(low, 2) && s[28..32] == Le(size, 4)
    ensures FirstCluster(s) == high * 0x1_0000 + low && Size(s) == size
  {
    LeTwo(high);
    LeTwo(low);
    LeFour(size);
    hide Le;
    assert s[20] == s[20..22][0] && s[21] == s[20..22][1] && s[26] == s[26..28][0] && s[27] == s[26..28][1];
    assert s[28] == s[28..32][0] && s[29] == s[28..32][1] && s[30] == s[28..32][2] && s[31] == s[28..32][3];
  }

  /** Which slots count as entries, and which of those are directories or pieces of long names. */
  lemma SlotKinds(raw: Raw, attributes: Byte, first: nat, size: nat)
    requires first < 0x1_0000_0000 && size < 0x1_0000_0000
    ensures var s := ShortEntry(raw, attributes, first, size);
            && (IsLive(s) <==> raw[0] != 0 && raw[0] != 0xE5 && attributes / 8 % 2 == 0)
            && (IsDirectory(s) <==> attributes / 16 % 2 == 1) && (IsLfn(s) <==> attributes == 0x0F)
            && (IsLfn(s) ==> !IsLive(s))
  {
    ShortAt(raw, attributes, first, size);
    hide ShortEntry;
  }

  /** The 16-bit characters `i` to `i + n` of a long name: its own, a terminator, and padding. */
  function Units(name: Str, i: nat, n: nat): (b: seq<Byte>)
    ensures |b| == 2 * n
    decreases n
  {
    if n == 0 then []
    else Le(if i < |name| then name[i] else if i == |name| then 0 else 0xFFFF, 2) + Units(name, i + 1, n - 1)
  }

  lemma {:induction false} UnitsAt(name: Str, i: nat, n: nat, k: nat)
    requires k < n
    ensures Units(name, i, n)[2 * k] == NameUnitByte(name, i + k, 0)
            && Units(name, i, n)[2 * k + 1] == NameUnitByte(name, i + k, 1)
    decreases n
  {
    UnitsUnfold(name, i, n);
    hide Units, NameUnitByte;
    if k > 0 {
      UnitsAt(name, i + 1, n - 1, k - 1);
      BehindTwo(NameUnitByte(name, i, 0), NameUnitByte(name, i, 1), Units(name, i + 1, n - 1), 2 * k);
      BehindTwo(NameUnitByte(name, i, 0), NameUnitByte(name, i, 1), Units(name, i + 1, n - 1), 2 * k + 1);
    }
  }

  lemma BehindTwo(a: Byte, b: Byte, rest: seq<Byte>, k: nat)
    requires 2 <= k < 2 + |rest|
    ensures ([a, b] + rest)[k] == rest[k - 2]
  {
  }

  lemma UnitsUnfold(name: Str, i: nat, n: nat)
    requires n > 0
    ensures Units(name, i, n) == [NameUnitByte(name, i, 0), NameUnitByte(name, i, 1)] + Units(name, i + 1, n - 1)
  {
    LeTwo(if i < |name| then name[i] else if i == |name| then 0 else 0xFFFF);
    hide Le;
  }

  function Stretches(first: Byte, a: seq<Byte>, checksum: Byte, b: seq<Byte>, c: seq<Byte>): seq<Byte> {
    [first] + a + [0x0F, 0, checksum] + b + [0, 0] + c
  }

  lemma StretchAt(first: Byte, a: seq<Byte>, checksum: Byte, b: seq<Byte>, c: seq<Byte>, k: nat)
    requires |a| == 10 && |b| == 12 && |c| == 4 && k < 32
    ensures |Stretches(first, a, checksum, b, c)| == 32
    ensures Stretches(first, a, checksum, b, c)[k] ==
            if k == 0 then first else if k < 11 then a[k - 1] else if k == 11 then 0x0F else if k == 12 then 0
            else if k == 13 then checksum else if k < 26 then b[k - 14] else if k < 28 then 0 else c[k - 28]
  {
  }

  /** A long-name slot as it stands on the disk: thirteen characters in three stretches. */
  lemma LongSlotBytes(name: Str, order: nat, last: bool, checksum: Byte)
    requires 1 <= order < 32
    ensures var base := (order - 1) * 13;
            LfnSlot(name, order, last, checksum) ==
            Stretches(order + if last then 0x40 else 0, Units(name, base, 5), checksum, Units(name, base + 5, 6),
              Units(name, base + 11, 2))
  {
    hide *;
    var base := (order - 1) * 13;
    var first: Byte := order + if last then 0x40 else 0;
    var s := LfnSlot(name, order, last, checksum);
    var t := Stretches(first, Units(name, base, 5), checksum, Units(name, base + 5, 6), Units(name, base + 11, 2));
    LongSlotAt(name, order, last, checksum);
    StretchAt(first, Units(name, base, 5), checksum, Units(name, base + 5, 6), Units(name, base + 11, 2), 0);
    forall k: nat | k < 32 ensures s[k] == t[k] {
      StretchAt(first, Units(name, base, 5), checksum, Units(name, base + 5, 6), Units(name, base + 11, 2), k);
      LongByteAt(name, base, first, checksum, k);
    }
  }

  lemma LongSlotAt(name: Str, order: nat, last: bool, checksum: Byte)
    requires 1 <= order < 32
    ensures var first: Byte := order + if last then 0x40 else 0;
            forall k: nat | k < 32 ::
              LfnSlot(name, order, last, checksum)[k] == LfnByte(name, (order - 1) * 13, first, checksum, k)
  {
    hide LfnByte, Unit, NameUnit;
  }

  lemma LongByteAt(name: Str, base: nat, first: Byte, checksum: Byte, k: nat)
    requires k < 32
    ensures LfnByte(name, base, first, checksum, k) ==
            if k == 0 then first else if k < 11 then Units(name, base, 5)[k - 1] else if k == 11 then 0x0F
            else if k == 12 then 0 else if k == 13 then checksum else if k < 26 then Units(name, base + 5, 6)[k - 14]
            else if k < 28 then 0 else Units(name, base + 11, 2)[k - 28]
  {
    hide NameUnitByte, Units;
    if 1 <= k < 11 {
      UnitsAt(name, base, 5, (k - 1) / 2);
    } else if 14 <= k < 26 {
      UnitsAt(name, base + 5, 6, (k - 14) / 2);
    } else if 28 <= k {
      UnitsAt(name, base + 11, 2, (k - 28) / 2);
    }
  }

  // ------------------------------------------------------------------ checksums

  /** The sum of eleven bytes, rotated to the right before each of them. */
  function RotatedSum(raw: seq<Byte>): Byte {
    if raw == [] then 0
    else
      var sum := RotatedSum(raw[..|raw| - 1]);
      (sum / 2 + sum % 2 * 128 + raw[|raw| - 1]) % 256
  }

  lemma {:induction false} ChecksumIs(raw: Raw, i: nat)
    requires i <= 11
    ensures ChecksumFrom(raw, i) == RotatedSum(raw[..i])
  {
    if i > 0 {
      ChecksumIs(raw, i - 1);
      assert raw[..i][..i - 1] == raw[..i - 1];
    }
  }

  /** A checksum tells names apart that differ in a single byte. */
  lemma ChecksumDiffers(raw: Raw, k: nat, c: Byte)
    requires k < 11 && c != raw[k]
    ensures Checksum(raw) == RotatedSum(raw) && Checksum(raw[k := c]) != Checksum(raw)
  {
    ChecksumIs(raw, 11);
    assert raw[..11] == raw;
    SumDiffers(raw, k, c, 11);
  }

  lemma {:induction false} SumDiffers(raw: Raw, k: nat, c: Byte, i: nat)
    requires k < i <= 11 && c != raw[k]
    ensures ChecksumFrom(raw[k := c], i) != ChecksumFrom(raw, i)
  {
    SumStep(raw, i);
    SumStep(raw[k := c], i);
    hide ChecksumFrom;
    if i == k + 1 {
      SumSame(raw, k, c, k);
      Sums(Rotated(ChecksumFrom(raw, k)), raw[k], c);
    } else {
      SumDiffers(raw, k, c, i - 1);
      assert raw[k := c][i - 1] == raw[i - 1];
      RotatedDiffers(ChecksumFrom(raw[k := c], i - 1), ChecksumFrom(raw, i - 1));
      Sums(raw[i - 1], Rotated(ChecksumFrom(raw[k := c], i - 1)), Rotated(ChecksumFrom(raw, i - 1)));
    }
  }

  function Rotated(x: Byte): Byte { x / 2 + x % 2 * 128 }

  lemma RotatedDiffers(x: Byte, y: Byte)
    requires x != y
    ensures Rotated(x) != Rotated(y)
  {
  }

  lemma Sums(p: Byte, x: Byte, y: Byte)
    requires x != y
    ensures (p + x) % 256 != (p + y) % 256 && (x + p) % 256 != (y + p) % 256
  {
  }

  lemma SumStep(raw: Raw, i: nat)
    requires 0 < i <= 11
    ensures ChecksumFrom(raw, i) == (Rotated(ChecksumFrom(raw, i - 1)) + raw[i - 1]) % 256
  {
  }

  lemma {:induction false} SumSame(raw: Raw, k: nat, c: Byte, i: nat)
    requires i <= k < 11
    ensures ChecksumFrom(raw[k := c], i) == ChecksumFrom(raw, i)
  {
    if i > 0 { SumSame(raw, k, c, i - 1); }
  }

  // ---------------------------------------------------------------------- names

  /** The characters a name may have beside letters and digits. */
  const PUNCTUATION: seq<Byte> := [0x20, 0x21, 0x23, 0x24, 0x25, 0x26, 0x27, 0x28, 0x29, 0x2B, 0x2C, 0x2D, 0x2E, 0x3B,
    0x3D,
    0x40, 0x5B, 0x5D, 0x5E, 0x5F, 0x60, 0x7B, 0x7D, 0x7E, 0x7F]

  predicate LetterOrDigit(c: Byte) {
    0x30 <= c <= 0x39 || 0x41 <= c <= 0x5A || 0x61 <= c <= 0x7A
  }

  /** Which names are valid: up to 127 of these characters, the last neither a space nor a dot. */
  lemma ValidExactly(name: Str)
    ensures ValidName(name) <==>
            && 1 <= |name| <= 127 && (forall i: nat | i < |name| :: LetterOrDigit(name[i]) || name[i] in PUNCTUATION)
            && name[|name| - 1] != 0x20 && name[|name| - 1] != 0x2E
  {
    forall c: Byte ensures !IsInvalidChar(c) <==> LetterOrDigit(c) || c in PUNCTUATION {
      CharExactly(c);
    }
    hide IsInvalidChar, LetterOrDigit;
  }

  lemma CharExactly(c: Byte)
    ensures !IsInvalidChar(c) <==> LetterOrDigit(c) || c in PUNCTUATION
  {
  }

  /** A part of an 8.3 name: valid characters but spaces, dots and the six that only long names may
      have. */
  predicate Plain(s: Str) {
    forall i: nat | i < |s| ::
      (LetterOrDigit(s[i]) || s[i] in PUNCTUATION)
      && s[i] !in [0x20, 0x2B, 0x2C, 0x2E, 0x3B, 0x3D, 0x5B, 0x5D]
  }

  /** Eight characters, or eight and up to three behind a dot, need no long name. */
  lemma ShortFits(base: Str, ext: Str)
    requires 1 <= |base| <= 8 && |ext| <= 3 && Plain(base) && Plain(ext)
    ensures var name := if ext == [] then base else base + [DOT] + ext;
            FitsShort(name) && ShortOf(name) == Fold(base) + Spaces(8 - |base|) + Fold(ext) + Spaces(3 - |ext|)
  {
    var name := if ext == [] then base else base + [DOT] + ext;
    PlainChars(base);
    PlainChars(ext);
    NoDotIn(base, ext);
    ValidExactly(name);
    AllChars(base, ext);
    hide *;
    FitsIs(name, base, ext);
  }

  lemma AllChars(base: Str, ext: Str)
    requires Plain(base) && Plain(ext) && base != []
    ensures var name := if ext == [] then base else base + [DOT] + ext;
            (forall i: nat | i < |name| :: LetterOrDigit(name[i]) || name[i] in PUNCTUATION)
            && name[|name| - 1] != 0x20 && name[|name| - 1] != 0x2E
  {
    var name := if ext == [] then base else base + [DOT] + ext;
    hide LetterOrDigit;
    forall i: nat | i < |name| ensures LetterOrDigit(name[i]) || name[i] in PUNCTUATION {
      if i > |base| {
        assert name[i] == ext[i - |base| - 1];
      }
    }
    assert name[|name| - 1] == if ext == [] then base[|base| - 1] else ext[|ext| - 1];
  }

  lemma FitsIs(name: Str, base: Str, ext: Str)
    requires ValidName(name) && BasePart(name) == base && ExtensionPart(name) == ext
    requires 1 <= |base| <= 8 && |ext| <= 3 && ShortChars(base) && ShortChars(ext)
    ensures FitsShort(name) && ShortOf(name) == Fold(base) + Spaces(8 - |base|) + Fold(ext) + Spaces(3 - |ext|)
  {
    hide ValidName, BasePart, ExtensionPart, ShortChars;
  }

  lemma PlainChars(s: Str)
    requires Plain(s)
    ensures ShortChars(s) && forall i: nat | i < |s| ::
              (LetterOrDigit(s[i]) || s[i] in PUNCTUATION) && s[i] != DOT && s[i] != SPACE
  {
    forall i: nat | i < |s| ensures ShortChar(s[i]) {
      OneChar(s[i]);
    }
    hide LetterOrDigit, ShortChar;
  }

  lemma OneChar(c: Byte)
    requires (LetterOrDigit(c) || c in PUNCTUATION) && c !in [0x20, 0x2B, 0x2C, 0x2E, 0x3B, 0x3D, 0x5B, 0x5D]
    ensures ShortChar(c)
  {
  }

  lemma NoDotIn(base: Str, ext: Str)
    requires |base| >= 1 && (forall i: nat | i < |base| :: base[i] != DOT) && forall i: nat | i < |ext| :: ext[i] != DOT
    ensures var name := if ext == [] then base else base + [DOT] + ext;
            BasePart(name) == base && ExtensionPart(name) == ext
  {
    var name := if ext == [] then base else base + [DOT] + ext;
    if ext == [] {
      assert LastDot(name) == -1;
    } else {
      assert forall j | |base| < j < |name| :: name[j] == ext[j - |base| - 1];
      assert name[|base|] == DOT;
      assert LastDot(name) == |base|;
    }
  }

  /** And no other name does without one. */
  lemma ShortOnly(name: Str)
    requires FitsShort(name)
    ensures exists base: Str, ext: Str :: Splits(name, base, ext)
  {
    hide *;
    PlainParts(name);
    SplitIs(name);
  }

  ghost predicate Splits(name: Str, base: Str, ext: Str) {
    && 1 <= |base| <= 8 && |ext| <= 3 && Plain(base) && Plain(ext)
    && name == if ext == [] then base else base + [DOT] + ext
  }

  lemma SplitIs(name: Str)
    requires FitsShort(name) && Plain(BasePart(name)) && Plain(ExtensionPart(name))
    ensures Splits(name, BasePart(name), ExtensionPart(name))
  {
    hide ValidName, ShortChars, Plain;
  }

  lemma PlainParts(name: Str)
    requires FitsShort(name)
    ensures Plain(BasePart(name)) && Plain(ExtensionPart(name))
  {
    hide *;
    var base, ext := BasePart(name), ExtensionPart(name);
    PartsOf(name);
    ValidExactly(name);
    PlainIs(name, base, 0);
    PlainIs(name, ext, if ext == [] then 0 else |base| + 1);
  }

  lemma PartsOf(name: Str)
    requires FitsShort(name)
    ensures var base, ext := BasePart(name), ExtensionPart(name);
            && ValidName(name) && ShortChars(base) && ShortChars(ext) && |base| <= |name| && base == name[..|base|]
            && (ext != [] ==> |base| + 1 + |ext| == |name| && ext == name[|base| + 1..])
  {
    hide ValidName, ShortChars;
  }

  lemma PlainIs(name: Str, part: Str, from: nat)
    requires forall i: nat | i < |name| :: LetterOrDigit(name[i]) || name[i] in PUNCTUATION
    requires ShortChars(part) && from + |part| <= |name| && part == name[from..from + |part|]
    ensures Plain(part)
  {
    hide LetterOrDigit, ShortChar;
    forall i: nat | i < |part| ensures part[i] == name[from + i] && part[i] !in [0x20, 0x2B, 0x2C, 0x2E, 0x3B, 0x3D,
                                                                            0x5B, 0x5D] {
      NeverShort(part[i]);
    }
  }

  lemma NeverShort(c: Byte)
    requires ShortChar(c)
    ensures c !in [0x20, 0x2B, 0x2C, 0x2E, 0x3B, 0x3D, 0x5B, 0x5D]
  {
  }

  /** A name takes one slot more than its long name has thirteens, or just the one if it is an 8.3
      name that no entry of the directory uses. */
  lemma SlotsTold(img: Image, d: nat, name: Str)
    requires d in img.views
    ensures SlotsNeeded(img, d, name) ==
            if FitsShort(name) && !exists k ::
              k in img.views[d] && RawName(img.views[d][k].entry) == ShortOf(name) then 1
            else 1 + (|name| + 12) / 13
  {
    hide FitsShort, ShortOf;
  }

  /** The same for a rename, which within one directory leaves out the entry that goes away. */
  lemma RenameSlotsTold(img: Image, d: nat, k: Key, d2: nat, name: Str)
    requires Listed(img, d, k) && d2 in img.views
    ensures RenameSlots(img, d, k, d2, name) ==
            if FitsShort(name) && !exists j ::
              && j in img.views[d2] && RawName(img.views[d2][j].entry) == ShortOf(name)
              && (d2 == d ==> ShortOf(name) != RawName(img.views[d][k].entry)) then 1
            else 1 + (|name| + 12) / 13
  {
    hide FitsShort, ShortOf;
  }

  // -------------------------------------------------------------------- aliases

  lemma FewAliases()
    ensures ALIAS_LIMIT == 10_000_000 && TILDE == 0x7E && DOT == 0x2E
  {
  }

  lemma {:induction false} KeptParts(a: Str, b: Str)
    ensures Kept(a + b) == Kept(a) + Kept(b)
    decreases |a|
  {
    if a == [] {
      assert a + b == b;
    } else {
      assert (a + b)[1..] == a[1..] + b;
      KeptParts(a[1..], b);
    }
  }

  /** A part of a name all of whose characters an alias keeps. */
  predicate Spelled(s: Str) {
    forall i: nat | i < |s| ::
      (LetterOrDigit(s[i]) || s[i] in PUNCTUATION) && s[i] != 0x20 && s[i] != 0x2E
  }

  /** An alias: the front of the base, a tilde, the ordinal, and the front of the extension, all in
      upper case and padded with spaces. */
  lemma AliasTold(base: Str, ext: Str, ordinal: nat)
    requires base != [] && Spelled(base) && Spelled(ext) && ordinal < 10_000_000
    ensures |Decimal(ordinal)| <= 7
    ensures var name := if ext == [] then base else base + [DOT] + ext;
            var room := 7 - |Decimal(ordinal)|;
            var b := if |base| <= room then base else base[..room];
            var e := if |ext| <= 3 then ext else ext[..3];
            Alias(name, ordinal) ==
            Fold(b) + [0x7E] + Decimal(ordinal) + Spaces(room - |b|) + Fold(e) + Spaces(3 - |e|)
  {
    hide *;
    FewAliases();
    AliasDigits(ordinal);
    DecimalDigits(ordinal);
    SpelledNoDot(base);
    SpelledNoDot(ext);
    NoDotIn(base, ext);
    KeptSpelled(base);
    KeptSpelled(ext);
    var name := if ext == [] then base else base + [DOT] + ext;
    FrontParts(name, base, ext);
    FoldFront(base, 8);
    FoldFront(base, 7 - |Decimal(ordinal)|);
    FoldFront(ext, 3);
    AliasFolds(name, base, ext, ordinal);
  }

  lemma DecimalDigits(n: nat)
    ensures |Decimal(n)| >= 1
  {
  }

  lemma SpelledNoDot(s: Str)
    requires Spelled(s)
    ensures forall i: nat | i < |s| :: s[i] != DOT
  {
    hide LetterOrDigit;
  }

  lemma {:induction false} KeptSpelled(s: Str)
    requires Spelled(s)
    ensures Kept(s) == Fold(s)
  {
    if s != [] {
      hide Fold;
      OneKept(s[0]);
      assert s == [s[0]] + s[1..];
      KeptSpelled(s[1..]);
      KeptParts([s[0]], s[1..]);
      FoldConcat([s[0]], s[1..]);
      hide Kept, Spelled;
    } else {
      assert Kept(s) == [] && Fold(s) == [];
    }
  }

  lemma OneKept(c: Byte)
    requires (LetterOrDigit(c) || c in PUNCTUATION) && c != 0x20 && c != 0x2E
    ensures Kept([c]) == [ToUpper(c)] && Fold([c]) == [ToUpper(c)]
  {
    assert [c][1..] == [] && Kept([]) == [];
  }

  lemma FrontParts(name: Str, base: Str, ext: Str)
    requires BasePart(name) == base && ExtensionPart(name) == ext && base != []
    requires Kept(base) == Fold(base) && Kept(ext) == Fold(ext)
    ensures AliasBase(name) == Truncated(Fold(base), 8) && AliasExtension(name) == Truncated(Fold(ext), 3)
  {
    hide Kept, BasePart, ExtensionPart;
    assert |Fold(base)| == |base|;
  }

  lemma FoldFront(s: Str, n: nat)
    ensures |Fold(s)| == |s| && Truncated(Fold(s), n) == Fold(if |s| <= n then s else s[..n])
  {
  }

  lemma AliasFolds(name: Str, base: Str, ext: Str, ordinal: nat)
    requires ordinal < ALIAS_LIMIT && 1 <= |Decimal(ordinal)| <= 7 && base != []
    requires AliasBase(name) == Truncated(Fold(base), 8) && AliasExtension(name) == Truncated(Fold(ext), 3)
    requires forall n: nat {:trigger Truncated(Fold(base), n)} ::
               n == 8 || n == 7 - |Decimal(ordinal)| ==>
                 Truncated(Fold(base), n) == Fold(if |base| <= n then base else base[..n])
    requires Truncated(Fold(ext), 3) == Fold(if |ext| <= 3 then ext else ext[..3])
    ensures var room := 7 - |Decimal(ordinal)|;
            var b := if |base| <= room then base else base[..room];
            var e := if |ext| <= 3 then ext else ext[..3];
            Alias(name, ordinal) ==
            Fold(b) + [TILDE] + Decimal(ordinal) + Spaces(room - |b|) + Fold(e) + Spaces(3 - |e|)
  {
    hide Decimal, AliasBase, AliasExtension;
    var room := 7 - |Decimal(ordinal)|;
    assert |Fold(base)| == |base|;
    assert Truncated(Truncated(Fold(base), 8), room) == Truncated(Fold(base), room);
    assert Truncated(Fold(base), room) == Fold(if |base| <= room then base else base[..room]);
    var b := if |base| <= room then base else base[..room];
    assert AliasStem(name, ordinal) == Fold(b) + [TILDE] + Decimal(ordinal);
    hide Fold, Truncated, AliasStem;
  }

  /** Spaces and further dots leave no trace in an alias. */
  lemma AliasSkips(a: Str, c: Byte, b: Str, ext: Str, ordinal: nat)
    requires (c == 0x20 || c == 0x2E) && a + b != [] && ext != [] && DOT !in ext && ordinal < 10_000_000
    ensures Alias(a + [c] + b + [DOT] + ext, ordinal) == Alias(a + b + [DOT] + ext, ordinal)
  {
    hide *;
    FewAliases();
    LastDotParts(a + [c] + b, ext);
    LastDotParts(a + b, ext);
    KeptParts(a, [c]);
    KeptParts(a + [c], b);
    KeptParts(a, b);
    KeptNothing(c);
    assert Kept(a) + Kept([c]) + Kept(b) == Kept(a) + Kept(b);
    SameAlias(a + [c] + b + [DOT] + ext, a + b + [DOT] + ext, ordinal);
  }

  lemma KeptNothing(c: Byte)
    requires c == 0x20 || c == 0x2E
    ensures Kept([c]) == []
  {
    assert [c][1..] == [] && Kept([]) == [];
  }

  lemma LastDotParts(base: Str, ext: Str)
    requires base != [] && ext != [] && DOT !in ext
    ensures BasePart(base + [DOT] + ext) == base && ExtensionPart(base + [DOT] + ext) == ext
  {
    var name := base + [DOT] + ext;
    assert forall j | |base| < j < |name| :: name[j] == ext[j - |base| - 1];
    assert name[|base|] == DOT;
    assert LastDot(name) == |base|;
  }

  lemma SameAlias(name: Str, other: Str, ordinal: nat)
    requires ordinal < ALIAS_LIMIT && Kept(BasePart(name)) == Kept(BasePart(other))
             && ExtensionPart(name) == ExtensionPart(other)
    ensures Alias(name, ordinal) == Alias(other, ordinal)
  {
    hide Kept, BasePart, ExtensionPart, Decimal;
  }

  /** The number that digits spell. */
  function Number(d: Str): nat {
    if d == [] || d[|d| - 1] < 0x30 then 0 else 10 * Number(d[..|d| - 1]) + (d[|d| - 1] - 0x30)
  }

  /** The ordinal stands in an alias in decimal, without leading zeros. */
  lemma {:induction false} DecimalReads(n: nat)
    ensures Number(Decimal(n)) == n && (n > 0 ==> Decimal(n)[0] != 0x30)
  {
    if n >= 10 {
      DecimalReads(n / 10);
      assert Decimal(n)[..|Decimal(n)| - 1] == Decimal(n / 10);
    } else {
      assert Decimal(n)[..0] == [] && Number([]) == 0;
    }
  }

  // ----------------------------------------------------- reading long names

  /** A 16-bit character the reader accepts: one of a name, the terminator or the padding. */
  predicate Readable(u: nat) {
    u == 0 || u == 0xFFFF || (u < 0x80 && (LetterOrDigit(u) || u in PUNCTUATION))
  }

  /** A slot with the right number and checksum, marked as the last piece or not, that reads well. */
  ghost predicate Piece(s: Slot, order: nat, last: bool, checksum: Byte) {
    && s[0] % 32 == order && (s[0] / 64 % 2 == 1 <==> last) && s[13] == checksum
    && forall j: nat | j < 13 :: Readable(Unit(s, j))
  }

  /** Pieces numbered down to `low`, the first of them marked as the last of its name. */
  ghost predicate Pieces(ps: seq<Slot>, low: nat, checksum: Byte) {
    ps != [] && forall i: nat | i < |ps| :: Piece(ps[i], low + (|ps| - 1 - i), i == 0, checksum)
  }

  ghost predicate EndsIn(slots: seq<Slot>, n: nat, low: nat, checksum: Byte) {
    n <= |slots| && Pieces(slots[|slots| - n..], low, checksum)
  }

  ghost predicate EndsInPieces(slots: seq<Slot>, low: nat, checksum: Byte) {
    exists n: nat :: EndsIn(slots, n, low, checksum)
  }

  /** An entry has a long name exactly if the slots in front of it end in a complete run of pieces,
      numbered down to 1 and with the checksum of its short name.  All else reads as the short name. */
  lemma LongNameExactly(slots: seq<Slot>, st: LfnState, entry: Slot)
    requires !st.active
    ensures HasLongName(entry, RunLfn(slots, st)) <==> EndsInPieces(slots, 1, Checksum(RawName(entry)))
  {
    hide *;
    RunReaches(slots, st, 1, Checksum(RawName(entry)));
    NameIsReached(entry, RunLfn(slots, st));
  }

  ghost predicate Reached(st: LfnState, low: nat, checksum: Byte) {
    st.active && st.valid && st.expected == low && st.checksum == checksum
  }

  lemma NameIsReached(entry: Slot, st: LfnState)
    ensures HasLongName(entry, st) <==> Reached(st, 1, Checksum(RawName(entry)))
  {
    hide Checksum;
  }

  lemma {:induction false} RunReaches(slots: seq<Slot>, st: LfnState, low: nat, checksum: Byte)
    requires !st.active && low >= 1
    ensures Reached(RunLfn(slots, st), low, checksum) <==> EndsInPieces(slots, low, checksum)
    decreases |slots|
  {
    hide *;
    if slots == [] {
      NothingRun(st, low, checksum);
    } else {
      var front, s := slots[..|slots| - 1], slots[|slots| - 1];
      RunReaches(front, st, low + 1, checksum);
      LastRun(slots, st);
      OneProcessed(s, RunLfn(front, st), low, checksum);
      EndsLonger(slots, low, checksum);
    }
  }

  lemma NothingRun(st: LfnState, low: nat, checksum: Byte)
    requires !st.active
    ensures !Reached(RunLfn([], st), low, checksum) && !EndsInPieces([], low, checksum)
  {
    hide Piece;
    forall n: nat ensures !EndsIn([], n, low, checksum) {
    }
  }

  lemma LastRun(slots: seq<Slot>, st: LfnState)
    requires slots != []
    ensures RunLfn(slots, st) == ProcessLfn(slots[|slots| - 1], RunLfn(slots[..|slots| - 1], st))
  {
    hide ProcessLfn;
  }

  /** One slot carries the reader on exactly if it starts a name or is the piece to come. */
  lemma OneProcessed(s: Slot, st: LfnState, low: nat, checksum: Byte)
    requires low >= 1
    ensures Reached(ProcessLfn(s, st), low, checksum) <==>
              || Piece(s, low, true, checksum)
              || (Piece(s, low, false, checksum) && Reached(st, low + 1, checksum))
  {
    var order: Byte := Order(s) % 32;
    UnitsRead(s, Started(s), (order - 1) * UNITS_PER_SLOT, 0);
    UnitsRead(s, st.(expected := order), (order - 1) * UNITS_PER_SLOT, 0);
    hide StoreUnits, Unit, Readable;
  }

  lemma {:induction false} UnitsRead(s: Slot, st: LfnState, base: int, j: nat)
    requires j <= 13
    ensures base >= 0 ==>
              var r := StoreUnits(s, st, base, j);
              && r.active == st.active && r.checksum == st.checksum && r.expected == st.expected
              && (r.valid <==> st.valid && forall i: nat | j <= i < 13 :: Readable(Unit(s, i)))
    decreases 13 - j
  {
    hide Unit, Store, Terminate, Readable, DecodeUnit;
    if j < 13 && base >= 0 {
      UnitReads(s, j);
      match DecodeUnit(Unit(s, j)) {
        case None =>
        case Some(c) => UnitsRead(s, st.(name := Store(st.name, base + j, c)), base, j + 1);
      }
    }
  }

  lemma UnitReads(s: Slot, j: nat)
    requires j < 13
    ensures Readable(Unit(s, j)) <==> DecodeUnit(Unit(s, j)).Some?
  {
    hide Unit;
  }

  lemma EndsLonger(slots: seq<Slot>, low: nat, checksum: Byte)
    requires slots != []
    ensures var front, s := slots[..|slots| - 1], slots[|slots| - 1];
            EndsInPieces(slots, low, checksum) <==>
              || Piece(s, low, true, checksum)
              || (Piece(s, low, false, checksum) && EndsInPieces(front, low + 1, checksum))
  {
    hide Piece, EndsIn;
    var front, s := slots[..|slots| - 1], slots[|slots| - 1];
    if n: nat :| EndsIn(slots, n, low, checksum) {
      EndsShorter(slots, n, low, checksum);
    }
    if Piece(s, low, true, checksum) {
      EndsInOne(slots, low, checksum);
    }
    if Piece(s, low, false, checksum) && EndsInPieces(front, low + 1, checksum) {
      var n: nat :| EndsIn(front, n, low + 1, checksum);
      EndsInMore(slots, n, low, checksum);
    }
  }

  lemma EndsInOne(slots: seq<Slot>, low: nat, checksum: Byte)
    requires slots != [] && Piece(slots[|slots| - 1], low, true, checksum)
    ensures EndsIn(slots, 1, low, checksum)
  {
    hide Piece;
    assert slots[|slots| - 1..] == [slots[|slots| - 1]];
  }

  lemma EndsShorter(slots: seq<Slot>, n: nat, low: nat, checksum: Byte)
    requires EndsIn(slots, n, low, checksum)
    ensures 1 <= n <= |slots| && Piece(slots[|slots| - 1], low, n == 1, checksum)
    ensures n > 1 ==> EndsIn(slots[..|slots| - 1], n - 1, low + 1, checksum)
  {
    hide Piece;
    var m, ps := |slots| - 1, slots[|slots| - n..];
    assert ps != [] && Piece(ps[n - 1], low + (|ps| - 1 - (n - 1)), n == 1, checksum);
    if n > 1 {
      var qs := slots[..m][m - (n - 1)..];
      forall i: nat | i < |qs| ensures Piece(qs[i], low + 1 + (|qs| - 1 - i), i == 0, checksum) {
        assert qs[i] == ps[i];
      }
    }
  }

  lemma EndsInMore(slots: seq<Slot>, n: nat, low: nat, checksum: Byte)
    requires slots != [] && Piece(slots[|slots| - 1], low, false, checksum)
    requires EndsIn(slots[..|slots| - 1], n, low + 1, checksum)
    ensures EndsIn(slots, n + 1, low, checksum)
  {
    hide Piece;
    var front, s := slots[..|slots| - 1], slots[|slots| - 1];
    var qs, ps := front[|front| - n..], slots[|slots| - (n + 1)..];
    assert ps == qs + [s];
    forall i: nat | i < |ps| ensures Piece(ps[i], low + (|ps| - 1 - i), i == 0, checksum) {
      if i < n { assert Piece(qs[i], low + 1 + (|qs| - 1 - i), i == 0, checksum); }
    }
  }
}
