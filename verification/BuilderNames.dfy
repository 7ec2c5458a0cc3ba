/** The image builder's short names, and how they relate to the kernel's. */
module BuilderNames {
  import opened Bytes
  import opened FatSlots
  import opened FatNames
  import opened FatImage

  /** Letters, digits and the underscore. */
  predicate BuilderChar(c: Byte) {
    0x30 <= c <= 0x39 || 0x41 <= c <= 0x5A || 0x61 <= c <= 0x7A || c == 0x5F
  }

  predicate BuilderChars(s: Str) {
    forall i | 0 <= i < |s| :: BuilderChar(s[i])
  }

  function Dots(s: Str): nat {
    if s == [] then 0 else (if s[0] == DOT then 1 else 0) + Dots(s[1..])
  }

  function FirstDot(s: Str): (d: int)
    ensures -1 <= d < |s|
    ensures d >= 0 ==> s[d] == DOT
    ensures forall i | 0 <= i < (if d == -1 then |s| else d) :: s[i] != DOT
  {
    if s == [] then -1
    else if s[0] == DOT then 0
    else if FirstDot(s[1..]) == -1 then -1
    else 1 + FirstDot(s[1..])
  }

  function BaseOf(s: Str): Str { if FirstDot(s) == -1 then s else s[..FirstDot(s)] }

  function ExtOf(s: Str): Str { if FirstDot(s) == -1 then [] else s[FirstDot(s) + 1..] }

  /** `short_name_11`: the eleven bytes, or a refusal. */
  function ShortName11(name: Str): Option<Raw> {
    var upper := Fold(name);
    if upper == [DOT] || upper == [DOT, DOT] then None
    else if Dots(upper) > 1 then None
    else
      var base, ext := BaseOf(upper), ExtOf(upper);
      if base == [] || |base| > 8 || |ext| > 3 then None
      else if !BuilderChars(base + ext) then None
      else Some(Pad(base, 8) + Pad(ext, 3))
  }

  lemma {:induction false} NoDots(s: Str)
    requires Dots(s) == 0
    ensures forall i | 0 <= i < |s| :: s[i] != DOT
  {
    if s != [] {
      NoDots(s[1..]);
    }
  }

  lemma {:induction false} OneDot(s: Str)
    requires Dots(s) <= 1 && FirstDot(s) >= 0
    ensures forall i | FirstDot(s) < i < |s| :: s[i] != DOT
  {
    if s[0] == DOT {
      NoDots(s[1..]);
    } else {
      OneDot(s[1..]);
      forall i | FirstDot(s) < i < |s| ensures s[i] != DOT {
        assert s[i] == s[1..][i - 1];
      }
    }
  }

  /** A name as the kernel can spell it: a lone dot at the end does not count. */
  function Core(name: Str): Str {
    if name != [] && name[|name| - 1] == DOT then name[..|name| - 1] else name
  }

  lemma LastIsOnly(s: Str, d: nat)
    requires d < |s| && s[d] == DOT && forall i | 0 <= i < |s| && i != d :: s[i] != DOT
    ensures LastDot(s) == d
  {
  }

  lemma NoLastDot(s: Str)
    requires forall i | 0 <= i < |s| :: s[i] != DOT
    ensures LastDot(s) == -1
  {
  }

  lemma DotFolds(name: Str)
    ensures forall i | 0 <= i < |name| :: Fold(name)[i] == DOT <==> name[i] == DOT
  {
  }

  lemma FoldCut(s: Str, d: nat)
    requires d < |s|
    ensures Fold(s[..d]) == Fold(s)[..d] && Fold(s[d + 1..]) == Fold(s)[d + 1..]
  {
  }

  lemma WholeParts(core: Str)
    requires LastDot(core) == -1
    ensures BasePart(core) == core && ExtensionPart(core) == []
  {
  }

  lemma CutParts(core: Str, d: nat)
    requires 0 < d < |core| - 1 && LastDot(core) == d
    ensures BasePart(core) == core[..d] && ExtensionPart(core) == core[d + 1..]
  {
  }

  lemma AcceptedParts(name: Str)
    requires ShortName11(name).Some?
    ensures Dots(Fold(name)) <= 1 && name != [] && FirstDot(Fold(name)) != 0
    ensures var base, ext := BaseOf(Fold(name)), ExtOf(Fold(name));
            1 <= |base| <= 8 && |ext| <= 3 && BuilderChars(base + ext)
              && ShortName11(name).value == Pad(base, 8) + Pad(ext, 3)
  {
  }

  /** Where the builder and the kernel cut a name in two. */
  lemma SameParts(name: Str)
    requires ShortName11(name).Some?
    ensures Fold(BasePart(Core(name))) == BaseOf(Fold(name)) && Fold(ExtensionPart(Core(name))) == ExtOf(Fold(name))
    ensures |Core(name)| >= 1 && Core(name)[|Core(name)| - 1] != DOT
  {
    var upper := Fold(name);
    AcceptedParts(name);
    DotFolds(name);
    var d := FirstDot(upper);
    hide ShortName11, Fold, LastDot, SplitDot, BasePart, ExtensionPart, Dots, FirstDot;
    if d == -1 {
      NoLastDot(name);
      WholeParts(name);
      FoldEmpty();
    } else {
      OneDot(upper);
      FoldCut(name, d);
      if d == |name| - 1 {
        NoLastDot(name[..d]);
        WholeParts(name[..d]);
        FoldEmpty();
      } else {
        LastIsOnly(name, d);
        CutParts(name, d);
      }
    }
  }

  lemma FoldEmpty()
    ensures Fold([]) == []
  {
  }

  lemma CharsFold(s: Str)
    requires BuilderChars(Fold(s))
    ensures BuilderChars(s) && ShortChars(s) && forall i | 0 <= i < |s| ::
            !IsInvalidChar(s[i]) && s[i] != SPACE && s[i] != DOT
  {
    forall i | 0 <= i < |s| ensures BuilderChar(s[i]) {
      assert BuilderChar(Fold(s)[i]);
    }
  }

  /** Letters, digits and underscores, up to eight and up to three behind a dot, are accepted. */
  lemma AcceptsPlain(base: Str, ext: Str)
    requires 1 <= |base| <= 8 && |ext| <= 3 && Wordlike(base) && Wordlike(ext)
    ensures ShortName11(base) == Some(Fold(base) + Spaces(11 - |base|))
    ensures ShortName11(base + [DOT] + ext) == Some(Fold(base) + Spaces(8 - |base|) + Fold(ext) + Spaces(3 - |ext|))
  {
    WordFolds(base);
    WordFolds(ext);
    NoDotsIn(Fold(base), []);
    NoDotsIn(Fold(base), Fold(ext));
    FoldConcat(base, [DOT]);
    FoldConcat(base + [DOT], ext);
    assert Fold([DOT]) == [DOT];
    assert Fold(base + [DOT] + ext) == Fold(base) + [DOT] + Fold(ext);
    assert Fold(base) + [] == Fold(base);
    assert Spaces(8 - |base|) + Spaces(3) == Spaces(11 - |base|);
    hide *;
    ParsedName(base, Fold(base), []);
    ParsedName(base + [DOT] + ext, Fold(base), Fold(ext));
    PadIs(Fold(base), Fold(ext));
    PadIs(Fold(base), []);
  }

  lemma PadIs(base: Str, ext: Str)
    requires |base| <= 8 && |ext| <= 3
    ensures Pad(base, 8) + Pad(ext, 3) == base + Spaces(8 - |base|) + ext + Spaces(3 - |ext|)
    ensures ext == [] ==> Pad(base, 8) + Pad(ext, 3) == base + Spaces(11 - |base|)
  {
  }

  predicate Wordlike(s: Str) {
    forall c | c in s :: 0x30 <= c <= 0x39 || 0x41 <= c <= 0x5A || 0x61 <= c <= 0x7A || c == 0x5F
  }

  lemma WordFolds(s: Str)
    requires Wordlike(s)
    ensures BuilderChars(Fold(s)) && forall i | 0 <= i < |s| :: Fold(s)[i] != DOT
  {
    forall i | 0 <= i < |s| ensures BuilderChar(Fold(s)[i]) && Fold(s)[i] != DOT {
      assert s[i] in s;
    }
  }

  lemma {:induction false} NoDotsIn(base: Str, ext: Str)
    requires (forall i | 0 <= i < |base| :: base[i] != DOT) && forall i | 0 <= i < |ext| :: ext[i] != DOT
    ensures Dots(ext) == 0 && FirstDot(ext) == -1
    ensures Dots(base + [DOT] + ext) == 1 && FirstDot(base + [DOT] + ext) == |base|
    ensures Dots(base + ext) == 0 && FirstDot(base + ext) == -1
    decreases |base| + |ext|
  {
    if base != [] {
      assert (base + [DOT] + ext)[1..] == base[1..] + [DOT] + ext && (base + ext)[1..] == base[1..] + ext;
      NoDotsIn(base[1..], ext);
    } else {
      assert [] + [DOT] + ext == [DOT] + ext && ([DOT] + ext)[1..] == ext && [] + ext == ext;
      if ext != [] { NoDotsIn([], ext[1..]); }
    }
  }

  lemma ParsedName(name: Str, base: Str, ext: Str)
    requires (Fold(name) == base && ext == []) || Fold(name) == base + [DOT] + ext
    requires FirstDot(Fold(name)) == if Fold(name) == base && ext == [] then -1 else |base|
    requires Dots(Fold(name)) <= 1 && 1 <= |base| <= 8 && |ext| <= 3 && BuilderChars(base) && BuilderChars(ext)
    requires forall i | 0 <= i < |base| :: base[i] != DOT
    ensures ShortName11(name) == Some(Pad(base, 8) + Pad(ext, 3))
  {
    var upper := Fold(name);
    hide *;
    assert upper[0] == base[0];
    assert upper != [DOT] && upper != [DOT, DOT];
    CutAtDot(upper, base, ext);
    BothPlain(base, ext);
    ShortFrom(name, base, ext);
  }

  lemma CutAtDot(upper: Str, base: Str, ext: Str)
    requires (upper == base && ext == [] && FirstDot(upper) == -1)
             || (upper == base + [DOT] + ext && FirstDot(upper) == |base|)
    ensures BaseOf(upper) == base && ExtOf(upper) == ext
  {
    hide FirstDot;
  }

  lemma BothPlain(a: Str, b: Str)
    requires BuilderChars(a) && BuilderChars(b)
    ensures BuilderChars(a + b)
  {
    hide BuilderChar;
  }

  lemma ShortFrom(name: Str, base: Str, ext: Str)
    requires var upper := Fold(name);
             upper != [DOT] && upper != [DOT, DOT] && Dots(upper) <= 1 && BaseOf(upper) == base && ExtOf(upper) == ext
    requires 1 <= |base| <= 8 && |ext| <= 3 && BuilderChars(base + ext)
    ensures ShortName11(name) == Some(Pad(base, 8) + Pad(ext, 3))
  {
    hide Fold, Dots, BaseOf, ExtOf, BuilderChars;
  }

  /** Every name the builder accepts is one the kernel would store in the same eleven bytes, but
      for a dot at its end. */
  lemma ShortNameIs(name: Str)
    requires ShortName11(name).Some?
    ensures FitsShort(Core(name)) && ShortName11(name).value == ShortOf(Core(name))
  {
    SameParts(name);
    var core, base, ext := Core(name), BasePart(Core(name)), ExtensionPart(Core(name));
    assert BuilderChars(Fold(base)) && BuilderChars(Fold(ext)) by { BothChars(BaseOf(Fold(name)), ExtOf(Fold(name))); }
    CharsFold(base);
    CharsFold(ext);
    CoreChars(core);
    assert |Fold(base)| == |base| && |Fold(ext)| == |ext|;
  }

  lemma BothChars(a: Str, b: Str)
    requires BuilderChars(a + b)
    ensures BuilderChars(a) && BuilderChars(b)
  {
    forall i | 0 <= i < |a| ensures BuilderChar(a[i]) { assert BuilderChar((a + b)[i]); }
    forall i | 0 <= i < |b| ensures BuilderChar(b[i]) { assert BuilderChar((a + b)[|a| + i]); }
  }

  lemma CoreChars(core: Str)
    requires |core| >= 1 && core[|core| - 1] != DOT && 1 <= |BasePart(core)| <= 8 && |ExtensionPart(core)| <= 3
    requires BuilderChars(BasePart(core)) && BuilderChars(ExtensionPart(core))
    ensures ValidName(core)
  {
    var d := SplitDot(core);
    forall i | 0 <= i < |core| ensures !IsInvalidChar(core[i]) && core[i] != SPACE {
      if d == -1 || i < d {
        assert core[i] == BasePart(core)[i];
      } else if i > d {
        assert core[i] == ExtensionPart(core)[i - d - 1];
      }
    }
    assert |core| <= 12;
    assert BuilderChar(BasePart(core)[0]) && BasePart(core)[0] == core[0];
  }

  // ------------------------------------------------------------------ keys

  /** The name a directory lists for an accepted name. */
  function KeyOf(name: Str): Key
    requires ShortName11(name).Some?
  {
    Fold(FormatShort(ShortName11(name).value))
  }

  /** The kernel finds an accepted name under its own case-folded form, unless it ends in a dot:
      then the dot is lost. */
  lemma KeyIs(name: Str)
    requires ShortName11(name).Some?
    ensures KeyOf(name) == Fold(Core(name)) && FormatShort(ShortName11(name).value) == Fold(Core(name))
    ensures KeyOf(name) == Fold(name) <==> name[|name| - 1] != DOT
    ensures !IsDot(KeyOf(name)) && 0 !in FormatShort(ShortName11(name).value)
  {
    ShortNameIs(name);
    SameParts(name);
    ShortNameRoundTrip(Core(name));
    FoldIdempotent(Core(name));
    assert |Fold(Core(name))| == |Core(name)| && |Fold(name)| == |name|;
    var f := Fold(Core(name));
    assert f[|f| - 1] == ToUpper(Core(name)[|f| - 1]);
    assert f[|f| - 1] != DOT;
    assert ValidName(Core(name));
    forall i | 0 <= i < |f| ensures f[i] != 0 {
      assert !IsInvalidChar(Core(name)[i]);
    }
  }

  /** The example: "A." is listed as "A". */
  lemma TrailingDotLost()
    ensures ShortName11([0x41, DOT]).Some? && KeyOf([0x41, DOT]) == [0x41]
  {
    var name: Str := [0x41, DOT];
    assert Fold(name) == name;
    assert Dots(name[1..][1..]) == 0;
    assert Dots(name[1..]) == 1;
    assert Dots(name) == 1;
    assert FirstDot(name[1..]) == 0 && FirstDot(name) == 1;
    assert BaseOf(name) == [0x41] && ExtOf(name) == [];
    assert BuilderChars([0x41] + []);
    KeyIs(name);
    assert Core(name) == [0x41];
  }

  /** Different short names are listed differently. */
  lemma RawsDiffer(a: Str, b: Str)
    requires ShortName11(a).Some? && ShortName11(b).Some? && KeyOf(a) == KeyOf(b)
    ensures ShortName11(a) == ShortName11(b)
  {
    KeyIs(a);
    KeyIs(b);
    ShortNameIs(a);
    ShortNameIs(b);
    FoldedParts(Core(a), Core(b));
  }

  /** Parts depend only on the folded name. */
  lemma FoldedParts(a: Str, b: Str)
    requires Fold(a) == Fold(b)
    ensures Fold(BasePart(a)) == Fold(BasePart(b)) && Fold(ExtensionPart(a)) == Fold(ExtensionPart(b))
  {
    DotFolds(a);
    DotFolds(b);
    assert |a| == |Fold(a)| == |Fold(b)| == |b|;
    SameLastDot(a, b);
    var d := SplitDot(a);
    if d != -1 {
      assert Fold(a[..d]) == Fold(a)[..d] && Fold(b[..d]) == Fold(b)[..d];
      assert Fold(a[d + 1..]) == Fold(a)[d + 1..] && Fold(b[d + 1..]) == Fold(b)[d + 1..];
    }
  }

  lemma {:induction false} SameLastDot(a: Str, b: Str)
    requires |a| == |b| && forall i | 0 <= i < |a| :: a[i] == DOT <==> b[i] == DOT
    ensures LastDot(a) == LastDot(b)
    decreases |a|
  {
    if a != [] && a[|a| - 1] != DOT {
      SameLastDot(a[..|a| - 1], b[..|b| - 1]);
    }
  }

  /** An accepted name starts a live entry. */
  lemma ShortStart(name: Str)
    requires ShortName11(name).Some?
    ensures var c := ShortName11(name).value[0]; c != 0 && c != DELETED && c != DOT
  {
    ShortNameIs(name);
    ShortNameStart(Core(name));
  }
}
