/** Bytes, C strings and the character helpers of the kernel's string library. */
module Bytes {
  type Byte = x: int | 0 <= x < 256
  type Str = seq<Byte>

  datatype Option<+T> = None | Some(value: T)

  const SPACE: Byte := 0x20
  const DOT: Byte := 0x2E
  const SLASH: Byte := 0x2F
  const TILDE: Byte := 0x7E
  const ZERO_DIGIT: Byte := 0x30

  predicate IsSpace(c: Byte) {
    c == SPACE || c == 9 || c == 13 || c == 10
  }

  function ToUpper(c: Byte): (u: Byte)
    ensures ToUpper'Fixed(u)
  {
    if 0x61 <= c <= 0x7A then c - 0x20 else c
  }

  predicate ToUpper'Fixed(c: Byte) {
    !(0x61 <= c <= 0x7A)
  }

  /** The same character, or one letter in both cases. */
  predicate SameLetter(a: Byte, b: Byte) {
    a == b || (0x41 <= a <= 0x5A && b == a + 0x20) || (0x41 <= b <= 0x5A && a == b + 0x20)
  }

  lemma FoldAlike(a: Byte, b: Byte)
    ensures ToUpper(a) == ToUpper(b) <==> SameLetter(a, b)
    ensures ToUpper(a) == if 0x61 <= a <= 0x7A then a - 0x20 else a
  {
  }

  /** Strings fold alike exactly if they differ in nothing but the case of letters. */
  lemma FoldsAlike(s: Str, t: Str)
    ensures Fold(s) == Fold(t) <==> |s| == |t| && forall i: nat | i < |s| :: SameLetter(s[i], t[i])
  {
    hide ToUpper, SameLetter;
    if |s| == |t| {
      forall i: nat | i < |s| ensures Fold(s)[i] == Fold(t)[i] <==> SameLetter(s[i], t[i]) {
        FoldAlike(s[i], t[i]);
      }
    }
  }

  /** Case folding of a whole string. */
  function Fold(s: Str): (u: Str)
    ensures |u| == |s|
    ensures forall i | 0 <= i < |s| :: u[i] == ToUpper(s[i])
  {
    seq(|s|, i requires 0 <= i < |s| => ToUpper(s[i]))
  }

  lemma FoldConcat(a: Str, b: Str)
    ensures Fold(a + b) == Fold(a) + Fold(b)
  {
  }

  lemma FoldIdempotent(a: Str)
    ensures Fold(Fold(a)) == Fold(a)
  {
  }

  /** The string stored in a NUL-terminated buffer. */
  function CStr(buffer: seq<Byte>): (s: Str)
    ensures |s| <= |buffer|
  {
    if buffer == [] || buffer[0] == 0 then [] else [buffer[0]] + CStr(buffer[1..])
  }

  /** A terminator after `s` and no earlier one make the buffer read back as `s`. */
  lemma {:induction false} CStrReads(buffer: seq<Byte>, s: Str)
    requires |s| < |buffer| && buffer[..|s|] == s && buffer[|s|] == 0 && 0 !in s
    ensures CStr(buffer) == s
  {
    if s != [] {
      assert buffer[0] == s[0];
      assert buffer[1..][..|s| - 1] == s[1..];
      CStrReads(buffer[1..], s[1..]);
    }
  }

  /** `v` in `n` bytes, least significant first. */
  function Le(v: nat, n: nat): (b: seq<Byte>)
    ensures |b| == n
  {
    if n == 0 then [] else [v % 256] + Le(v / 256, n - 1)
  }

  lemma LeTwo(v: nat)
    ensures Le(v, 2) == [v % 256, v / 256 % 256]
  {
    assert Le(v / 256, 1) == [v / 256 % 256] + Le(v / 256 / 256, 0);
  }

  lemma LeFour(v: nat)
    ensures Le(v, 4) == [v % 256, v / 256 % 256, v / 256 / 256 % 256, v / 256 / 256 / 256 % 256]
  {
    LeTwo(v / 256 / 256);
    assert Le(v / 256, 3) == [v / 256 % 256] + Le(v / 256 / 256, 2);
  }

  function Zeros(n: nat): (z: seq<Byte>)
    ensures |z| == n && forall i | 0 <= i < n :: z[i] == 0
  {
    seq(n, _ => 0)
  }

  function Spaces(n: nat): (z: seq<Byte>)
    ensures |z| == n && forall i | 0 <= i < n :: z[i] == SPACE
  {
    seq(n, _ => SPACE)
  }

  /** `s` padded on the right with spaces to `n` bytes. */
  function Pad(s: Str, n: nat): (p: Str)
    requires |s| <= n
    ensures |p| == n && p[..|s|] == s
  {
    s + Spaces(n - |s|)
  }

  /** `buffer` with `data` copied over it at `offset`. */
  function Splice(buffer: seq<Byte>, offset: nat, data: seq<Byte>): (r: seq<Byte>)
    requires offset + |data| <= |buffer|
    ensures |r| == |buffer|
  {
    buffer[..offset] + data + buffer[offset + |data|..]
  }

  /** Byte by byte: the data where it was put, and what was there everywhere else. */
  lemma SpliceAt(buffer: seq<Byte>, offset: nat, data: seq<Byte>, k: nat)
    requires offset + |data| <= |buffer| && k < |buffer|
    ensures Splice(buffer, offset, data)[k] ==
            if offset <= k < offset + |data| then data[k - offset] else buffer[k]
  {
  }
}
