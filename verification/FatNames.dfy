/** File names: validity, 8.3 names, aliases, and the long-name reader. */
module FatNames {
  import opened Bytes
  import opened FatSlots

  type NameBuffer = s: seq<Byte> | |s| == NAME_CAPACITY witness seq(NAME_CAPACITY, _ => 0)

  /** Characters that may not occur in a name.  `char` is signed in the kernel, so every byte
      from 0x80 up compares below 0x20. */
  predicate IsInvalidChar(c: Byte) {
    || c < 0x20 || c >= 0x80
    || c == 0x22 || c == 0x2A || c == SLASH || c == 0x3A || c == 0x3C
    || c == 0x3E || c == 0x3F || c == 0x5C || c == 0x7C
  }

  predicate ValidName(name: Str) {
    && 0 < |name| < NAME_CAPACITY
    && name != [DOT] && name != [DOT, DOT]
    && (forall i | 0 <= i < |name| :: !IsInvalidChar(name[i]))
    && name[|name| - 1] != SPACE && name[|name| - 1] != DOT
  }

  method ValidateLongName(name: Str) returns (ok: bool)
    ensures ok == ValidName(name)
  {
    if name == [] || name == [DOT] || name == [DOT, DOT] {
      return false;
    }
    var length := 0;
    while length < |name|
      invariant 0 <= length <= |name| && length < NAME_CAPACITY
      invariant forall i | 0 <= i < length :: !IsInvalidChar(name[i])
    {
      if length + 1 >= NAME_CAPACITY || IsInvalidChar(name[length]) {
        return false;
      }
      length := length + 1;
    }
    ok := name[length - 1] != SPACE && name[length - 1] != DOT;
  }

  function LfnCount(name: Str): nat {
    (|name| + UNITS_PER_SLOT - 1) / UNITS_PER_SLOT
  }

  // ------------------------------------------------------ long-name reader

  datatype LfnState = LfnState(active: bool, valid: bool, checksum: Byte, expected: Byte, name: NameBuffer)

  function Reset(st: LfnState): LfnState {
    LfnState(false, false, 0, 0, st.name[0 := 0])
  }

  function DecodeUnit(u: nat): Option<Byte> {
    if u == 0 || u == 0xFFFF then Some(0)
    else if u >= 0x100 || IsInvalidChar(u) then None
    else Some(u)
  }

  function Store(buffer: NameBuffer, i: nat, c: Byte): NameBuffer {
    if i + 1 < NAME_CAPACITY then buffer[i := c] else buffer
  }

  function Terminate(buffer: NameBuffer): NameBuffer {
    if 0 in buffer then buffer else buffer[NAME_CAPACITY - 1 := 0]
  }

  function StoreUnits(s: Slot, st: LfnState, base: nat, j: nat): LfnState
    requires j <= UNITS_PER_SLOT
    decreases UNITS_PER_SLOT - j
  {
    if j == UNITS_PER_SLOT then st.(name := Terminate(st.name))
    else match DecodeUnit(Unit(s, j))
      case None => st.(valid := false)
      case Some(c) => StoreUnits(s, st.(name := Store(st.name, base + j, c)), base, j + 1)
  }

  function Started(s: Slot): LfnState {
    LfnState(true, true, LfnChecksum(s), Order(s) % 32, Zeros(NAME_CAPACITY))
  }

  predicate IsLast(s: Slot) { (Order(s) / 0x40) % 2 == 1 }

  predicate Continues(s: Slot, st: LfnState) {
    && st.active && st.valid && LfnChecksum(s) == st.checksum
    && Order(s) % 32 != 0 && Order(s) % 32 + 1 == st.expected
  }

  /** The reader after one long-name slot. */
  function ProcessLfn(s: Slot, st: LfnState): LfnState {
    var order: Byte := Order(s) % 32;
    if IsLast(s) then
      if order == 0 then Reset(st)
      else StoreUnits(s, Started(s), (order - 1) * UNITS_PER_SLOT, 0)
    else if !Continues(s, st) then Reset(st)
    else StoreUnits(s, st.(expected := order), (order - 1) * UNITS_PER_SLOT, 0)
  }

  /** The bytes of `s` before the first space. */
  function UntilSpace(s: Str): (r: Str)
    ensures r <= s
  {
    if s == [] || s[0] == SPACE then [] else [s[0]] + UntilSpace(s[1..])
  }

  predicate HasExtension(raw: Raw) {
    raw[8] != SPACE || raw[9] != SPACE || raw[10] != SPACE
  }

  function FormatShort(raw: Raw): Str {
    UntilSpace(raw[..8]) + if HasExtension(raw) then [DOT] + UntilSpace(raw[8..]) else []
  }

  predicate HasLongName(entry: Slot, st: LfnState) {
    && st.active && st.valid && st.expected == 1
    && st.checksum == Checksum(RawName(entry))
  }

  function DecodeName(entry: Slot, st: LfnState): Str {
    if HasLongName(entry, st) && st.name[0] != 0 then CStr(st.name) else FormatShort(RawName(entry))
  }

  // -------------------------------------------------- long-name round trip

  function NameChar(name: Str, i: nat): Byte {
    if i < |name| then name[i] else 0
  }

  /** The reader part-way through the pieces of `name`: `left` pieces are still to come. */
  ghost predicate Reading(st: LfnState, name: Str, left: nat, checksum: Byte) {
    && st.active && st.valid && st.checksum == checksum && st.expected == left + 1
    && forall p: nat | p < NAME_CAPACITY ::
         st.name[p] == if left * UNITS_PER_SLOT <= p < NAME_CAPACITY - 1 then NameChar(name, p) else 0
  }

  lemma {:induction false} StoreUnitsStores(s: Slot, st: LfnState, name: Str, base: nat, j: nat)
    requires ValidName(name) && j <= UNITS_PER_SLOT
    requires forall k: nat | k < UNITS_PER_SLOT :: Unit(s, k) == NameUnit(name, base + k)
    requires st.name[NAME_CAPACITY - 1] == 0
    ensures var r := StoreUnits(s, st, base, j);
            && r == st.(name := r.name)
            && forall p: nat | p < NAME_CAPACITY ::
                 r.name[p] == if base + j <= p < base + UNITS_PER_SLOT && p < NAME_CAPACITY - 1
                              then NameChar(name, p) else st.name[p]
    decreases UNITS_PER_SLOT - j
  {
    if j < UNITS_PER_SLOT {
      assert Unit(s, j) == NameUnit(name, base + j);
      var c := NameChar(name, base + j);
      assert DecodeUnit(Unit(s, j)) == Some(c);
      StoreUnitsStores(s, st.(name := Store(st.name, base + j, c)), name, base, j + 1);
    }
  }

  /** Slot `s` carries piece number `order` of `name`. */
  ghost predicate IsPiece(s: Slot, name: Str, order: nat, last: bool, checksum: Byte)
    requires order < 32
  {
    && 1 <= order <= LfnCount(name)
    && IsLfn(s) && LfnChecksum(s) == checksum
    && Order(s) == order + (if last then 0x40 else 0)
    && forall j: nat | j < UNITS_PER_SLOT :: Unit(s, j) == NameUnit(name, (order - 1) * UNITS_PER_SLOT + j)
  }

  lemma PieceStored(s: Slot, from: LfnState, name: Str, order: nat, checksum: Byte)
    requires ValidName(name) && 1 <= order < 32
    requires forall j: nat | j < UNITS_PER_SLOT :: Unit(s, j) == NameUnit(name, (order - 1) * UNITS_PER_SLOT + j)
    requires from.active && from.valid && from.checksum == checksum && from.expected == order
    requires forall p: nat | p < NAME_CAPACITY ::
        from.name[p] == if order * UNITS_PER_SLOT <= p < NAME_CAPACITY - 1 then NameChar(name, p) else 0
    ensures Reading(StoreUnits(s, from, (order - 1) * UNITS_PER_SLOT, 0), name, order - 1, checksum)
  {
    StoreUnitsStores(s, from, name, (order - 1) * UNITS_PER_SLOT, 0);
  }

  /** One more piece brings the reader one step further, from any state for the first piece. */
  lemma ReadPiece(s: Slot, name: Str, order: nat, last: bool, checksum: Byte, st: LfnState)
    requires ValidName(name) && order < 32 && IsPiece(s, name, order, last, checksum)
    requires if last then order == LfnCount(name) else Reading(st, name, order, checksum)
    ensures Reading(ProcessLfn(s, st), name, order - 1, checksum)
  {
    hide StoreUnits, Unit, NameUnit, ValidName;
    assert Order(s) % 32 == order && IsLast(s) == last;
    assert !last ==> Continues(s, st);
    PieceStored(s, if last then Started(s) else st.(expected := order), name, order, checksum);
  }

  /** With all pieces read, the long name comes back unchanged. */
  lemma ReadingDone(st: LfnState, name: Str, entry: Slot)
    requires ValidName(name) && Reading(st, name, 0, Checksum(RawName(entry)))
    ensures HasLongName(entry, st) && DecodeName(entry, st) == name
  {
    assert st.name[..|name|] == name;
    CStrReads(st.name, name);
  }

  /** The slots of a name: its long-name pieces, highest number first, then the short entry. */
  function NameSlots(name: Str, lfns: nat, entry: Slot): (slots: seq<Slot>)
    requires lfns < 32
    ensures |slots| == lfns + 1 && slots[lfns] == entry
  {
    seq(lfns, i requires 0 <= i < lfns => LfnSlot(name, lfns - i, i == 0, Checksum(RawName(entry)))) + [entry]
  }

  /** `slots` are the long-name pieces of `name`, highest number first. */
  ghost predicate ArePieces(slots: seq<Slot>, name: Str, checksum: Byte) {
    && |slots| == LfnCount(name) < 32
    && forall i: nat | i < |slots| :: IsPiece(slots[i], name, |slots| - i, i == 0, checksum)
  }

  lemma NameSlotsArePieces(name: Str, entry: Slot)
    requires ValidName(name)
    ensures LfnCount(name) < MAX_NAME_ENTRIES
    ensures ArePieces(NameSlots(name, LfnCount(name), entry)[..LfnCount(name)], name, Checksum(RawName(entry)))
  {
    hide LfnSlot, Checksum, IsInvalidChar, RawName, Unit, NameUnit;
  }

  function RunLfn(slots: seq<Slot>, st: LfnState): LfnState {
    if slots == [] then st else ProcessLfn(slots[|slots| - 1], RunLfn(slots[..|slots| - 1], st))
  }

  lemma {:induction false} ReadPieces(slots: seq<Slot>, name: Str, checksum: Byte, st: LfnState, k: nat)
    requires ValidName(name) && ArePieces(slots, name, checksum) && 1 <= k <= |slots|
    ensures Reading(RunLfn(slots[..k], st), name, |slots| - k, checksum)
    decreases k
  {
    assert slots[..k][..k - 1] == slots[..k - 1];
    if k > 1 {
      ReadPieces(slots, name, checksum, st, k - 1);
    }
    ReadPiece(slots[k - 1], name, |slots| - (k - 1), k == 1, checksum, RunLfn(slots[..k - 1], st));
  }

  /** Long names round-trip: the slots written for a name, read back in order from any reader
      state, decode to that name. */
  lemma LongNameRoundTrip(name: Str, entry: Slot, st: LfnState)
    requires ValidName(name)
    ensures LfnCount(name) < MAX_NAME_ENTRIES
    ensures var n := LfnCount(name);
            var st' := RunLfn(NameSlots(name, n, entry)[..n], st);
            HasLongName(entry, st') && DecodeName(entry, st') == name
  {
    NameSlotsArePieces(name, entry);
    var slots := NameSlots(name, LfnCount(name), entry)[..LfnCount(name)];
    ReadPieces(slots, name, Checksum(RawName(entry)), st, |slots|);
    assert slots[..|slots|] == slots;
    ReadingDone(RunLfn(slots, st), name, entry);
  }

  // --------------------------------------------------------- short names

  /** Index of the last dot, or -1. */
  function LastDot(s: Str): (d: int)
    ensures -1 <= d < |s|
    ensures d >= 0 ==> s[d] == DOT
    ensures forall i | d < i < |s| :: s[i] != DOT
  {
    if s == [] then -1
    else if s[|s| - 1] == DOT then |s| - 1
    else LastDot(s[..|s| - 1])
  }

  /** The dot that starts an extension: the last one, unless it opens or closes the name. */
  function SplitDot(name: Str): (d: int)
    ensures -1 <= d < |name| && d != 0
  {
    var d := LastDot(name);
    if d == 0 || d == |name| - 1 then -1 else d
  }

  function BasePart(name: Str): Str {
    if SplitDot(name) == -1 then name else name[..SplitDot(name)]
  }

  function ExtensionPart(name: Str): Str {
    if SplitDot(name) == -1 then [] else name[SplitDot(name) + 1..]
  }

  predicate ShortChar(c: Byte) {
    && c != DOT && !IsSpace(c) && c != 0x2B && c != 0x2C && c != 0x3B && c != 0x3D && c != 0x5B && c != 0x5D
  }

  predicate ShortChars(s: Str) {
    forall i | 0 <= i < |s| :: ShortChar(s[i])
  }

  predicate FitsShort(name: Str) {
    && ValidName(name)
    && ShortChars(BasePart(name)) && ShortChars(ExtensionPart(name))
    && 1 <= |BasePart(name)| <= 8 && |ExtensionPart(name)| <= 3
  }

  function ShortOf(name: Str): Raw
    requires FitsShort(name)
  {
    Pad(Fold(BasePart(name)), 8) + Pad(Fold(ExtensionPart(name)), 3)
  }

  lemma {:induction false} UntilSpacePadded(s: Str, n: nat)
    requires |s| <= n && SPACE !in s
    ensures UntilSpace(Pad(s, n)) == s
  {
    if s != [] {
      assert Pad(s, n)[1..] == Pad(s[1..], n - 1);
      assert s == [s[0]] + s[1..];
      UntilSpacePadded(s[1..], n - 1);
    }
  }

  /** An 8.3 name reads back as its upper-case form. */
  lemma ShortNameRoundTrip(name: Str)
    requires FitsShort(name)
    ensures FormatShort(ShortOf(name)) == Fold(name)
  {
    NoSpaceInFold(BasePart(name));
    NoSpaceInFold(ExtensionPart(name));
    FormatParts(Fold(BasePart(name)), Fold(ExtensionPart(name)));
    NameParts(name);
  }

  lemma NameParts(name: Str)
    ensures Fold(name) == Fold(BasePart(name)) + if ExtensionPart(name) != [] then [DOT] + Fold(ExtensionPart(name))
            else []
  {
    if SplitDot(name) >= 0 {
      var base, ext := BasePart(name), ExtensionPart(name);
      assert name == base + [DOT] + ext;
      hide Fold;
      FoldConcat(base + [DOT], ext);
      FoldConcat(base, [DOT]);
      FoldDot();
    }
  }

  lemma FoldDot()
    ensures Fold([DOT]) == [DOT]
  {
  }

  lemma ShortNameStart(name: Str)
    requires FitsShort(name)
    ensures var c := ShortOf(name)[0]; c != 0 && c != DELETED && c != DOT
  {
    var base := BasePart(name);
    assert !IsInvalidChar(name[0]) && base[0] == name[0] && ShortChar(base[0]);
    assert ShortOf(name)[0] == Fold(base)[0];
  }

  lemma FormatParts(base: Str, ext: Str)
    requires |base| <= 8 && |ext| <= 3 && SPACE !in base && SPACE !in ext
    ensures FormatShort(Pad(base, 8) + Pad(ext, 3)) == base + if ext != [] then [DOT] + ext else []
  {
    var raw := Pad(base, 8) + Pad(ext, 3);
    assert raw[..8] == Pad(base, 8) && raw[8..] == Pad(ext, 3);
    UntilSpacePadded(base, 8);
    UntilSpacePadded(ext, 3);
    assert ext != [] ==> raw[8] == ext[0] && ext[0] in ext;
    assert ext == [] ==> raw[8] == SPACE && raw[9] == SPACE && raw[10] == SPACE;
  }

  lemma NoSpaceInFold(s: Str)
    requires ShortChars(s)
    ensures SPACE !in Fold(s)
  {
    forall i | 0 <= i < |s| ensures Fold(s)[i] != SPACE {
      assert ShortChar(s[i]);
    }
  }

  // ------------------------------------------------ the reader in place

  /** The reader as the kernel keeps it: fields and a name buffer updated slot by slot. */
  class LfnReader {
    var active: bool
    var valid: bool
    var checksum: Byte
    var expected: Byte
    const name: array<Byte>

    predicate Valid() { name.Length == NAME_CAPACITY }

    function View(): LfnState
      requires Valid()
      reads this, name
    {
      LfnState(active, valid, checksum, expected, name[..])
    }

    constructor ()
      ensures Valid() && fresh(name) && !active
    {
      active, valid, checksum, expected := false, false, 0, 0;
      name := new Byte[NAME_CAPACITY](_ => 0);
    }

    method ResetState()
      requires Valid()
      modifies this, name
      ensures View() == Reset(old(View()))
    {
      active, valid, checksum, expected := false, false, 0, 0;
      name[0] := 0;
    }

    method StoreCharacter(i: nat, c: Byte)
      requires Valid()
      modifies name
      ensures View() == old(View()).(name := Store(old(View()).name, i, c))
    {
      if i + 1 < NAME_CAPACITY {
        name[i] := c;
      }
    }

    method TerminateName()
      requires Valid()
      modifies name
      ensures View() == old(View()).(name := Terminate(old(View()).name))
    {
      var i := 0;
      while i < NAME_CAPACITY
        invariant 0 <= i <= NAME_CAPACITY
        invariant name[..] == old(name[..]) && forall k | 0 <= k < i :: name[k] != 0
      {
        if name[i] == 0 {
          assert name[..][i] == 0;
          return;
        }
        i := i + 1;
      }
      name[NAME_CAPACITY - 1] := 0;
    }

    method ProcessEntry(s: Slot)
      requires Valid()
      modifies this, name
      ensures View() == ProcessLfn(s, old(View()))
    {
      var order: Byte := Order(s) % 32;
      if IsLast(s) {
        ResetState();
        if order == 0 {
          return;
        }
        active, valid, checksum, expected := true, true, LfnChecksum(s), order;
        for i := 0 to NAME_CAPACITY
          invariant active && valid && checksum == LfnChecksum(s) && expected == order
          invariant forall k | 0 <= k < i :: name[k] == 0
        {
          name[i] := 0;
        }
        assert View() == Started(s);
      } else if !active || !valid || LfnChecksum(s) != checksum || order == 0 || order + 1 != expected {
        ResetState();
        return;
      } else {
        expected := order;
      }
      StoreName(s, (order - 1) * UNITS_PER_SLOT);
    }

    method StoreName(s: Slot, base: nat)
      requires Valid()
      modifies this, name
      ensures View() == StoreUnits(s, old(View()), base, 0)
    {
      var j := 0;
      while j < UNITS_PER_SLOT
        invariant 0 <= j <= UNITS_PER_SLOT
        invariant StoreUnits(s, old(View()), base, 0) == StoreUnits(s, View(), base, j)
      {
        var decoded := DecodeUnit(Unit(s, j));
        if decoded.None? {
          valid := false;
          return;
        }
        StoreCharacter(base + j, decoded.value);
        j := j + 1;
      }
      TerminateName();
    }
  }
}
