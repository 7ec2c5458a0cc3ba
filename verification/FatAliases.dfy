/** Short names for long ones: when a name fits 8.3, and numbered aliases otherwise. */
module FatAliases {
  import opened Bytes
  import opened FatSlots
  import opened FatNames

  const ALIAS_LIMIT := 1_0000_000   // ordinals below this keep their digits inside the base

  function Kept(s: Str): Str {
    if s == [] then []
    else if s[0] == DOT || IsInvalidChar(s[0]) || IsSpace(s[0]) then Kept(s[1..])
    else [ToUpper(s[0])] + Kept(s[1..])
  }

  function Truncated(s: Str, n: nat): Str {
    if |s| <= n then s else s[..n]
  }

  function AliasBase(name: Str): (b: Str)
    ensures 1 <= |b| <= 8
  {
    var base := Truncated(Kept(BasePart(name)), 8);
    if base == [] then [0x46] else base
  }

  function AliasExtension(name: Str): (e: Str)
    ensures |e| <= 3
  {
    Truncated(Kept(ExtensionPart(name)), 3)
  }

  function Decimal(n: nat): (d: Str)
    ensures |d| >= 1
    ensures forall i | 0 <= i < |d| :: ZERO_DIGIT <= d[i] < ZERO_DIGIT + 10
  {
    if n < 10 then [ZERO_DIGIT + n] else Decimal(n / 10) + [ZERO_DIGIT + n % 10]
  }

  function Pow10(k: nat): nat {
    if k == 0 then 1 else 10 * Pow10(k - 1)
  }

  lemma {:induction false} DecimalLength(n: nat, k: nat)
    requires k >= 1 && n < Pow10(k)
    ensures |Decimal(n)| <= k
    decreases k
  {
    if n >= 10 {
      assert n / 10 < Pow10(k - 1);
      DecimalLength(n / 10, k - 1);
    }
  }

  lemma {:induction false} DecimalInjective(m: nat, n: nat)
    requires Decimal(m) == Decimal(n)
    ensures m == n
    decreases m
  {
    var d, e := Decimal(m), Decimal(n);
    assert d[|d| - 1] == ZERO_DIGIT + m % 10 && e[|e| - 1] == ZERO_DIGIT + n % 10;
    if m >= 10 && n >= 10 {
      assert d[..|d| - 1] == Decimal(m / 10) && e[..|e| - 1] == Decimal(n / 10);
      DecimalInjective(m / 10, n / 10);
    }
  }

  /** The base of an alias: what is left of the name, a tilde and the ordinal. */
  function AliasStem(name: Str, ordinal: nat): (s: Str)
    requires ordinal < ALIAS_LIMIT
    ensures |s| <= 8
  {
    assert |Decimal(ordinal)| <= 7 by { AliasDigits(ordinal); }
    Truncated(AliasBase(name), 7 - |Decimal(ordinal)|) + [TILDE] + Decimal(ordinal)
  }

  function Alias(name: Str, ordinal: nat): Raw
    requires ordinal < ALIAS_LIMIT
  {
    Pad(AliasStem(name, ordinal), 8) + Pad(AliasExtension(name), 3)
  }

  /** The digits after the last tilde decide the alias. */
  lemma AliasInjective(name: Str, m: nat, n: nat)
    requires m < ALIAS_LIMIT && n < ALIAS_LIMIT
    requires Alias(name, m) == Alias(name, n)
    ensures m == n
  {
    AliasDigits(m);
    AliasDigits(n);
    var a, b := Truncated(AliasBase(name), 7 - |Decimal(m)|), Truncated(AliasBase(name), 7 - |Decimal(n)|);
    assert Pad(AliasStem(name, m), 8) == Alias(name, m)[..8] == Alias(name, n)[..8] == Pad(AliasStem(name, n), 8);
    TildeDecides(a, Decimal(m), b, Decimal(n));
    DecimalInjective(m, n);
  }

  predicate Digits(d: Str) {
    |d| >= 1 && forall i | 0 <= i < |d| :: ZERO_DIGIT <= d[i] < ZERO_DIGIT + 10
  }

  lemma TildeDecides(a: Str, d: Str, b: Str, e: Str)
    requires Digits(d) && Digits(e) && |a| + |d| < 8 && |b| + |e| < 8
    requires Pad(a + [TILDE] + d, 8) == Pad(b + [TILDE] + e, 8)
    ensures d == e
  {
    var p, q := Pad(a + [TILDE] + d, 8), Pad(b + [TILDE] + e, 8);
    assert forall i | |a| < i < 8 :: p[i] == (if i - |a| - 1 < |d| then d[i - |a| - 1] else SPACE);
    assert forall i | |b| < i < 8 :: q[i] == (if i - |b| - 1 < |e| then e[i - |b| - 1] else SPACE);
    assert p[|a|] == TILDE && q[|b|] == TILDE;
    assert |a| == |b|;
    assert p[|a| + 1..] == Pad(d, 7 - |a|) && q[|a| + 1..] == Pad(e, 7 - |a|);
    DigitsEnd(d, e, 7 - |a|);
    DigitsEnd(e, d, 7 - |a|);
  }

  lemma DigitsEnd(d: Str, e: Str, n: nat)
    requires Digits(d) && Digits(e) && |d| <= n && |e| <= n && Pad(d, n) == Pad(e, n)
    ensures |d| <= |e|
  {
    assert |e| < n ==> Pad(e, n)[|e|] == SPACE;
  }

  lemma {:induction false} KeptChars(s: Str)
    ensures forall i | 0 <= i < |Kept(s)| :: !IsInvalidChar(Kept(s)[i]) && Kept(s)[i] != DOT && Kept(s)[i] != SPACE
  {
    if s != [] {
      KeptChars(s[1..]);
    }
  }

  lemma AliasStart(name: Str, ordinal: nat)
    requires ordinal < ALIAS_LIMIT
    ensures var c := Alias(name, ordinal)[0]; c != 0 && c != DELETED && c != DOT
  {
    KeptChars(BasePart(name));
    assert Alias(name, ordinal)[0] == AliasStem(name, ordinal)[0];
  }

  // ------------------------------------------------------- searching

  function AliasesUpTo(name: Str, k: nat): (s: set<Raw>)
    requires k < ALIAS_LIMIT
  {
    set o | 1 <= o <= k :: Alias(name, o)
  }

  lemma AliasesStep(name: Str, k: nat)
    requires 1 <= k < ALIAS_LIMIT
    ensures AliasesUpTo(name, k) == AliasesUpTo(name, k - 1) + {Alias(name, k)}
  {
    hide Alias;
  }

  lemma AliasUnseen(name: Str, k: nat)
    requires 1 <= k < ALIAS_LIMIT
    ensures Alias(name, k) !in AliasesUpTo(name, k - 1)
  {
    forall o | 1 <= o <= k - 1 ensures Alias(name, o) != Alias(name, k) {
      if Alias(name, o) == Alias(name, k) { AliasInjective(name, o, k); }
    }
    hide Alias;
  }

  lemma {:induction false} AliasesCounted(name: Str, k: nat)
    requires k < ALIAS_LIMIT
    ensures |AliasesUpTo(name, k)| == k
    decreases k
  {
    hide Alias;
    if k == 0 {
      assert AliasesUpTo(name, 0) == {};
    } else {
      AliasesCounted(name, k - 1);
      AliasesStep(name, k);
      AliasUnseen(name, k);
    }
  }

  lemma SubsetSize<T>(a: set<T>, b: set<T>)
    requires a <= b
    ensures |a| <= |b|
  {
    assert b == a + (b - a);
  }

  /** By pigeonhole, a directory with `|used|` names leaves one of the first `|used| + 1`
      aliases free. */
  lemma AliasAvailable(name: Str, used: set<Raw>, k: nat)
    requires k < ALIAS_LIMIT && AliasesUpTo(name, k) <= used
    ensures k <= |used|
  {
    AliasesCounted(name, k);
    SubsetSize(AliasesUpTo(name, k), used);
  }

  /** `raw` with `lfns` long-name pieces is how `name` is stored next to the names `used`:
      in 8.3 form when that fits and is free, otherwise under the first unused alias. */
  ghost predicate StoredAs(name: Str, used: set<Raw>, raw: Raw, lfns: nat) {
    && raw !in used
    && if FitsShort(name) && ShortOf(name) !in used then raw == ShortOf(name) && lfns == 0
       else
         && lfns == LfnCount(name)
         && exists o: nat :: 1 <= o < ALIAS_LIMIT && raw == Alias(name, o) && AliasesUpTo(name, o - 1) <= used
  }

  lemma StoredStart(name: Str, used: set<Raw>, raw: Raw, lfns: nat)
    requires ValidName(name) && StoredAs(name, used, raw, lfns)
    ensures raw[0] != 0 && raw[0] != DELETED && raw[0] != DOT
    ensures lfns < MAX_NAME_ENTRIES
  {
    if FitsShort(name) && ShortOf(name) !in used {
      ShortNameStart(name);
    } else {
      var o: nat :| 1 <= o < ALIAS_LIMIT && raw == Alias(name, o) && AliasesUpTo(name, o - 1) <= used;
      AliasStart(name, o);
    }
  }

  // ------------------------------------------------------- the builders

  /** What the loops below have seen of the base and of the extension after `i` characters. */
  function BaseSeen(name: Str, i: nat): Str
    requires i <= |name|
  {
    var first := if SplitDot(name) == -1 then |name| else SplitDot(name);
    name[..if i < first then i else first]
  }

  function ExtensionSeen(name: Str, i: nat): Str
    requires i <= |name|
  {
    if SplitDot(name) == -1 || i <= SplitDot(name) then [] else name[SplitDot(name) + 1..i]
  }

  lemma SeenStep(name: Str, i: nat)
    requires i < |name|
    ensures SplitDot(name) == -1 || i < SplitDot(name) ==>
              BaseSeen(name, i + 1) == BaseSeen(name, i) + [name[i]]
                && ExtensionSeen(name, i + 1) == ExtensionSeen(name, i)
    ensures i == SplitDot(name) ==>
              BaseSeen(name, i + 1) == BaseSeen(name, i) && ExtensionSeen(name, i + 1) == ExtensionSeen(name, i)
    ensures 0 <= SplitDot(name) < i ==>
              BaseSeen(name, i + 1) == BaseSeen(name, i)
                && ExtensionSeen(name, i + 1) == ExtensionSeen(name, i) + [name[i]]
  {
    hide SplitDot, LastDot;
    SnocSlice(name, 0, i);
    if 0 <= SplitDot(name) < i {
      SnocSlice(name, SplitDot(name) + 1, i);
    }
  }

  lemma SnocSlice(s: Str, a: nat, i: nat)
    requires a <= i < |s|
    ensures s[a..i + 1] == s[a..i] + [s[i]]
    ensures s[..i + 1] == s[..i] + [s[i]]
  {
  }

  lemma SeenAll(name: Str)
    ensures BaseSeen(name, |name|) == BasePart(name) && ExtensionSeen(name, |name|) == ExtensionPart(name)
  {
  }

  lemma SeenPrefix(name: Str, i: nat)
    requires i <= |name|
    ensures BaseSeen(name, i) <= BasePart(name) && ExtensionSeen(name, i) <= ExtensionPart(name)
  {
  }

  lemma FoldSnoc(s: Str, c: Byte)
    ensures Fold(s + [c]) == Fold(s) + [ToUpper(c)]
  {
  }

  lemma NotShort(name: Str, i: nat)
    requires i < |name| && i != SplitDot(name) && !ShortChar(name[i])
    ensures !FitsShort(name)
  {
    if SplitDot(name) == -1 || i < SplitDot(name) {
      assert BasePart(name)[i] == name[i];
    } else {
      assert ExtensionPart(name)[i - SplitDot(name) - 1] == name[i];
    }
  }

  lemma IsShort(name: Str)
    requires ValidName(name)
    requires ShortChars(BaseSeen(name, |name|)) && ShortChars(ExtensionSeen(name, |name|))
    requires |BaseSeen(name, |name|)| <= 8 && |ExtensionSeen(name, |name|)| <= 3
    ensures FitsShort(name) == (BaseSeen(name, |name|) != [])
    ensures FitsShort(name) ==>
              ShortOf(name) == Pad(Fold(BaseSeen(name, |name|)), 8) + Pad(Fold(ExtensionSeen(name, |name|)), 3)
  {
    SeenAll(name);
  }

  method MakeShortName(name: Str) returns (r: Option<Raw>)
    ensures r == if FitsShort(name) then Some(ShortOf(name)) else None
  {
    var ok := ValidateLongName(name);
    if !ok {
      return None;
    }
    var dot := FindLastDot(name);
    var parts := ScanShort(name, dot);
    if parts.None? {
      return None;
    }
    hide *;
    IsShort(name);
    if parts.value.0 == [] {
      return None;
    }
    r := Some(Pad(parts.value.0, 8) + Pad(parts.value.1, 3));
  }

  method ScanShort(name: Str, dot: int) returns (r: Option<(Str, Str)>)
    requires dot == SplitDot(name)
    ensures r.None? ==> !FitsShort(name)
    ensures r.Some? ==>
              && ShortChars(BaseSeen(name, |name|)) && ShortChars(ExtensionSeen(name, |name|))
              && |r.value.0| <= 8 && |r.value.1| <= 3
              && r.value == (Fold(BaseSeen(name, |name|)), Fold(ExtensionSeen(name, |name|)))
  {
    hide FitsShort, SplitDot, BaseSeen, ExtensionSeen, Fold;
    var base, ext: Str := [], [];
    EmptySeen(name);
    for i := 0 to |name|
      invariant ShortChars(BaseSeen(name, i)) && ShortChars(ExtensionSeen(name, i))
      invariant base == Fold(BaseSeen(name, i)) && |base| <= 8
      invariant ext == Fold(ExtensionSeen(name, i)) && |ext| <= 3
    {
      var c := name[i];
      SeenStep(name, i);
      FoldSnoc(BaseSeen(name, i), c);
      FoldSnoc(ExtensionSeen(name, i), c);
      if (if c == DOT then dot == -1 || i != dot else !ShortChar(c)) {
        NotShort(name, i);
        return None;
      }
      if c == DOT {
      } else if dot == -1 || i < dot {
        if |base| >= 8 {
          TooLong(name, i);
          return None;
        }
        base := base + [ToUpper(c)];
      } else {
        if |ext| >= 3 {
          TooLong(name, i);
          return None;
        }
        ext := ext + [ToUpper(c)];
      }
    }
    r := Some((base, ext));
  }

  lemma EmptySeen(name: Str)
    ensures BaseSeen(name, 0) == [] && ExtensionSeen(name, 0) == [] && Fold([]) == []
    ensures SplitDot(name) >= 0 ==> name[SplitDot(name)] == DOT
    ensures Truncated(Kept([]), 8) == [] && Truncated(Kept([]), 3) == []
  {
  }

  lemma TooLong(name: Str, i: nat)
    requires i < |name|
    requires |BaseSeen(name, i + 1)| > 8 || |ExtensionSeen(name, i + 1)| > 3
    ensures !FitsShort(name)
  {
    SeenPrefix(name, i + 1);
  }

  method FindLastDot(name: Str) returns (d: int)
    requires name != []
    ensures d == SplitDot(name)
  {
    d := -1;
    for i := 0 to |name|
      invariant d == LastDot(name[..i])
    {
      assert name[..i + 1][..i] == name[..i];
      if name[i] == DOT {
        d := i;
      }
    }
    assert name[..|name|] == name;
    if d == 0 || d == |name| - 1 {
      d := -1;
    }
  }

  function Appended(s: Str, c: Byte, n: nat): Str {
    if |s| < n then s + [ToUpper(c)] else s
  }

  lemma TruncatedSnoc(s: Str, c: Byte, n: nat)
    ensures Truncated(s + [ToUpper(c)], n) == Appended(Truncated(s, n), c, n)
  {
  }

  method BuildShortAlias(name: Str, ordinal: nat) returns (out: Raw)
    requires ValidName(name) && ordinal < ALIAS_LIMIT
    ensures out == Alias(name, ordinal)
  {
    var dot := FindLastDot(name);
    var base, ext := AliasParts(name, dot);
    var digits := WriteDigits(ordinal);
    AliasDigits(ordinal);
    hide *;
    CopyLength(base, 7 - |digits|);
    AliasAssembled(name, ordinal);
    var copy := if 8 - (|digits| + 1) > |base| then |base| else 8 - (|digits| + 1);
    out := Pad(base[..copy] + [TILDE] + digits, 8) + Pad(ext, 3);
  }

  lemma AliasAssembled(name: Str, ordinal: nat)
    requires ordinal < ALIAS_LIMIT && |Decimal(ordinal)| <= 7
    ensures |Truncated(AliasBase(name), 7 - |Decimal(ordinal)|) + [TILDE] + Decimal(ordinal)| <= 8
    ensures Alias(name, ordinal) ==
            Pad(Truncated(AliasBase(name), 7 - |Decimal(ordinal)|) + [TILDE] + Decimal(ordinal),
              8) + Pad(AliasExtension(name), 3)
  {
    hide AliasBase, AliasExtension, Decimal;
  }

  method AliasParts(name: Str, dot: int) returns (base: Str, ext: Str)
    requires dot == SplitDot(name)
    ensures base == AliasBase(name) && ext == AliasExtension(name)
  {
    base, ext := KeepParts(name, dot);
    hide Kept, BasePart, ExtensionPart;
    if base == [] {
      base := [0x46];
    }
  }

  method KeepParts(name: Str, dot: int) returns (base: Str, ext: Str)
    requires dot == SplitDot(name)
    ensures base == Truncated(Kept(BasePart(name)), 8)
    ensures ext == Truncated(Kept(ExtensionPart(name)), 3)
  {
    hide *;
    EmptySeen(name);
    base, ext := [], [];
    for i := 0 to |name|
      invariant base == Truncated(Kept(BaseSeen(name, i)), 8)
      invariant ext == Truncated(Kept(ExtensionSeen(name, i)), 3)
    {
      var c := name[i];
      SeenStep(name, i);
      KeptSnoc(BaseSeen(name, i), c);
      KeptSnoc(ExtensionSeen(name, i), c);
      TruncatedSnoc(Kept(BaseSeen(name, i)), c, 8);
      TruncatedSnoc(Kept(ExtensionSeen(name, i)), c, 3);
      if c == DOT || IsInvalidChar(c) || IsSpace(c) {
      } else if dot != -1 && i > dot {
        ext := Appended(ext, c, 3);
      } else {
        base := Appended(base, c, 8);
      }
    }
    SeenAll(name);
  }

  lemma AliasDigits(ordinal: nat)
    requires ordinal < ALIAS_LIMIT
    ensures |Decimal(ordinal)| <= 7
  {
    DecimalLength(ordinal, 7);
  }

  lemma CopyLength(base: Str, room: nat)
    ensures base[..if room > |base| then |base| else room] == Truncated(base, room)
  {
    assert base[..|base|] == base;
  }

  lemma {:induction false} KeptSnoc(s: Str, c: Byte)
    ensures Kept(s + [c]) == if c == DOT || IsInvalidChar(c) || IsSpace(c) then Kept(s) else Kept(s) + [ToUpper(c)]
  {
    if s != [] {
      assert (s + [c])[1..] == s[1..] + [c];
      KeptSnoc(s[1..], c);
    }
  }

  /** The kernel collects digits lowest first and copies them back reversed. */
  method WriteDigits(ordinal: nat) returns (digits: Str)
    requires ordinal < ALIAS_LIMIT
    ensures digits == Decimal(ordinal)
  {
    var n := ordinal / 10;
    digits := [ZERO_DIGIT + ordinal % 10];
    while n != 0
      invariant n >= 0 && Decimal(ordinal) == (if n == 0 then [] else Decimal(n)) + digits
      decreases n
    {
      assert n / 10 < n;
      digits := [ZERO_DIGIT + n % 10] + digits;
      n := n / 10;
    }
  }
}
