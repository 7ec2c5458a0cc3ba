/** Path strings: their components, and the normaliser that turns a working directory and an
    input into one canonical absolute path. */
module Paths {
  import opened Bytes

  const PATH_CAPACITY := 128

  predicate NoSlash(s: Str) { SLASH !in s }

  /** Characters before the first slash. */
  function HeadLength(s: Str): (n: nat)
    ensures n <= |s| && NoSlash(s[..n]) && (n < |s| ==> s[n] == SLASH)
  {
    if s == [] || s[0] == SLASH then 0 else 1 + HeadLength(s[1..])
  }

  function LeadingSlashes(s: Str): (n: nat)
    ensures n <= |s| && (n < |s| ==> s[n] != SLASH) && (forall i | 0 <= i < n :: s[i] == SLASH)
  {
    if s == [] || s[0] != SLASH then 0 else 1 + LeadingSlashes(s[1..])
  }

  /** The non-empty pieces between slashes. */
  function Components(s: Str): (cs: seq<Str>)
    ensures forall i | 0 <= i < |cs| :: cs[i] != [] && NoSlash(cs[i])
    decreases |s|
  {
    if s == [] then []
    else if s[0] == SLASH then Components(s[1..])
    else [s[..HeadLength(s)]] + Components(s[HeadLength(s)..])
  }

  lemma {:induction false} HeadExact(c: Str, rest: Str)
    requires NoSlash(c) && (rest == [] || rest[0] == SLASH)
    ensures HeadLength(c + rest) == |c|
    decreases |c|
  {
    if c == [] {
      assert c + rest == rest;
    } else {
      assert c[0] != SLASH && (c + rest)[0] == c[0];
      assert (c + rest)[1..] == c[1..] + rest;
      HeadExact(c[1..], rest);
    }
  }

  lemma {:induction false} SkipSlashes(s: Str)
    ensures Components(s[LeadingSlashes(s)..]) == Components(s)
    decreases |s|
  {
    if s != [] && s[0] == SLASH {
      SkipSlashes(s[1..]);
      assert s[1..][LeadingSlashes(s[1..])..] == s[LeadingSlashes(s)..];
    }
  }

  /** A slash never joins the pieces around it. */
  lemma {:induction false} ComponentsAround(a: Str, b: Str)
    ensures Components(a + [SLASH] + b) == Components(a) + Components(b)
    decreases |a|
  {
    if a == [] {
      assert [] + [SLASH] + b == [SLASH] + b;
      assert ([SLASH] + b)[1..] == b;
    } else if a[0] == SLASH {
      assert (a + [SLASH] + b)[1..] == a[1..] + [SLASH] + b;
      ComponentsAround(a[1..], b);
    } else {
      var n := HeadLength(a);
      var whole := a + [SLASH] + b;
      HeadExact(a[..n], a[n..] + [SLASH] + b);
      assert whole == a[..n] + (a[n..] + [SLASH] + b);
      assert n > 0;
      assert whole[..n] == a[..n] && whole[n..] == a[n..] + [SLASH] + b;
      ComponentsAround(a[n..], b);
    }
  }

  lemma SingleComponent(c: Str)
    requires c != [] && NoSlash(c)
    ensures Components(c) == [c]
  {
    HeadExact(c, []);
    assert c + [] == c;
    assert c[..|c|] == c && c[|c|..] == [];
  }

  /** Splitting at the last slash splits off the last component. */
  lemma SplitLast(parent: Str, name: Str)
    requires name != [] && NoSlash(name)
    ensures Components(parent + [SLASH] + name) == Components(parent) + [name]
  {
    ComponentsAround(parent, name);
    SingleComponent(name);
  }

  // ----------------------------------------------------- the normal form

  /** "/" followed by the upper-case components, separated by slashes. */
  function Joined(stack: seq<Str>): (s: Str)
    ensures stack == [] ==> s == []
  {
    if stack == [] then [] else Joined(stack[..|stack| - 1]) + [SLASH] + stack[|stack| - 1]
  }

  function Rendered(stack: seq<Str>): (s: Str)
    ensures |s| >= 1
  {
    if stack == [] then [SLASH] else Joined(stack)
  }

  /** What one component does to the stack. */
  function Apply(stack: seq<Str>, c: Str): seq<Str> {
    if c == [DOT] then stack
    else if c == [DOT, DOT] then (if stack == [] then [] else stack[..|stack| - 1])
    else stack + [Fold(c)]
  }

  function Folded(stack: seq<Str>, comps: seq<Str>): seq<Str>
    decreases |comps|
  {
    if comps == [] then stack else Folded(Apply(stack, comps[0]), comps[1..])
  }

  predicate Fits(stack: seq<Str>, capacity: nat) {
    |Rendered(stack)| < capacity && |stack| <= PATH_CAPACITY
  }

  /** Every stack on the way fits the buffer. */
  predicate AllFit(stack: seq<Str>, comps: seq<Str>, capacity: nat)
    decreases |comps|
  {
    comps == [] || (Fits(Apply(stack, comps[0]), capacity) && AllFit(Apply(stack, comps[0]), comps[1..], capacity))
  }

  predicate Proper(c: Str) {
    c != [] && NoSlash(c) && c != [DOT] && c != [DOT, DOT] && Fold(c) == c
  }

  /** Canonical components: upper case, and none empty, "." or "..". */
  predicate Canonical(stack: seq<Str>) {
    forall i | 0 <= i < |stack| :: Proper(stack[i])
  }

  lemma FoldProper(c: Str)
    requires c != [] && NoSlash(c) && c != [DOT] && c != [DOT, DOT]
    ensures Proper(Fold(c))
  {
    FoldIdempotent(c);
    assert forall i | 0 <= i < |c| :: c[i] != SLASH && Fold(c)[i] == ToUpper(c[i]);
    assert |c| == 1 ==> c[0] != DOT;
    assert |c| == 2 ==> c[0] != DOT || c[1] != DOT;
  }

  lemma {:induction false} FoldedCanonical(stack: seq<Str>, comps: seq<Str>)
    requires Canonical(stack)
    requires forall i | 0 <= i < |comps| :: comps[i] != [] && NoSlash(comps[i])
    ensures Canonical(Folded(stack, comps))
    decreases |comps|
  {
    if comps != [] {
      var c := comps[0];
      if c != [DOT] && c != [DOT, DOT] {
        FoldProper(c);
      }
      FoldedCanonical(Apply(stack, c), comps[1..]);
    }
  }

  /** A canonical path names exactly its stack. */
  lemma {:induction false} RenderedComponents(stack: seq<Str>)
    requires Canonical(stack)
    ensures Components(Rendered(stack)) == stack
    decreases |stack|
  {
    if stack == [] {
      assert [SLASH][1..] == [];
    } else {
      var rest := stack[..|stack| - 1];
      assert stack == rest + [stack[|stack| - 1]];
      RenderedComponents(rest);
      SplitLast(Joined(rest), stack[|stack| - 1]);
      if rest == [] {
        assert Components([]) == [];
      }
    }
  }

  /** Folding a canonical list of components appends it. */
  lemma {:induction false} FoldedAppends(stack: seq<Str>, comps: seq<Str>)
    requires Canonical(comps)
    ensures Folded(stack, comps) == stack + comps
    decreases |comps|
  {
    if comps == [] {
      assert stack + comps == stack;
    } else {
      FoldedAppends(stack + [comps[0]], comps[1..]);
      assert stack + [comps[0]] + comps[1..] == stack + comps;
    }
  }

  /** The specification of the normaliser: a stack folded over the components of the working
      directory (unless the input is absolute) and of the input. */
  function Inputs(cwd: Str, input: Str): seq<Str> {
    (if input != [] && input[0] == SLASH then [] else Components(cwd)) + Components(input)
  }

  function Normal(cwd: Str, input: Str): Str {
    Rendered(Folded([], Inputs(cwd, input)))
  }

  /** The result is canonical: it is an absolute path whose components are proper, it has no
      trailing slash, and its components are the folded stack. */
  lemma NormalCanonical(cwd: Str, input: Str)
    ensures var stack := Folded([], Inputs(cwd, input));
            Canonical(stack) && Components(Normal(cwd, input)) == stack
    ensures Normal(cwd, input)[0] == SLASH
    ensures Fold(Normal(cwd, input)) == Normal(cwd, input)
    ensures |Normal(cwd, input)| > 1 ==> Normal(cwd, input)[|Normal(cwd, input)| - 1] != SLASH
  {
    var stack := Folded([], Inputs(cwd, input));
    FoldedCanonical([], Inputs(cwd, input));
    RenderedComponents(stack);
    RenderedShape(stack);
  }

  lemma {:induction false} RenderedShape(stack: seq<Str>)
    requires Canonical(stack)
    ensures Rendered(stack)[0] == SLASH && Fold(Rendered(stack)) == Rendered(stack)
    ensures |Rendered(stack)| > 1 ==> Rendered(stack)[|Rendered(stack)| - 1] != SLASH
    decreases |stack|
  {
    if stack != [] {
      var rest, c := stack[..|stack| - 1], stack[|stack| - 1];
      assert Proper(c);
      RenderedShape(rest);
      FoldConcat(Joined(rest), [SLASH]);
      FoldConcat(Joined(rest) + [SLASH], c);
      assert Fold([SLASH]) == [SLASH];
      assert Rendered(stack)[|Rendered(stack)| - 1] == c[|c| - 1];
    } else {
      assert Fold([SLASH]) == [SLASH];
    }
  }

  /** Normalising a normal path changes nothing, wherever one stands. */
  lemma NormalIdempotent(cwd: Str, input: Str, elsewhere: Str)
    ensures Normal(elsewhere, Normal(cwd, input)) == Normal(cwd, input)
  {
    NormalCanonical(cwd, input);
    var stack := Folded([], Inputs(cwd, input));
    var path := Normal(cwd, input);
    assert Inputs(elsewhere, path) == [] + stack == stack;
    FoldedAppends([], stack);
    assert [] + stack == stack;
  }

  // --------------------------------------------------- what the normal form is

  /** One step up after a step down leads back. */
  lemma DownAndUp(cwd: Str, input: Str, c: Str)
    requires input != [] && c != [] && NoSlash(c) && c != [DOT] && c != [DOT, DOT]
    ensures Normal(cwd, input + [SLASH] + c + [SLASH, DOT, DOT]) == Normal(cwd, input)
  {
    var down := input + [SLASH] + c;
    SplitLast(input, c);
    SplitLast(down, [DOT, DOT]);
    assert down + [SLASH] + [DOT, DOT] == down + [SLASH, DOT, DOT];
    var comps := Inputs(cwd, input);
    assert Inputs(cwd, down + [SLASH, DOT, DOT]) == comps + ([c] + [[DOT, DOT]]);
    FoldedParts([], comps, [c] + [[DOT, DOT]], 0);
    FoldedParts(Folded([], comps), [c], [[DOT, DOT]], 0);
    FoldedOne(Folded([], comps), c);
    FoldedOne(Folded([], comps) + [Fold(c)], [DOT, DOT]);
  }

  lemma FoldedOne(stack: seq<Str>, c: Str)
    ensures Folded(stack, [c]) == Apply(stack, c)
  {
    assert [c][1..] == [];
  }

  /** A step to where one is changes nothing. */
  lemma StayingPut(cwd: Str, input: Str)
    requires input != []
    ensures Normal(cwd, input + [SLASH, DOT]) == Normal(cwd, input)
  {
    SplitLast(input, [DOT]);
    assert input + [SLASH] + [DOT] == input + [SLASH, DOT];
    assert Inputs(cwd, input + [SLASH, DOT]) == Inputs(cwd, input) + [[DOT]];
    FoldedParts([], Inputs(cwd, input), [[DOT]], 0);
    FoldedOne(Folded([], Inputs(cwd, input)), [DOT]);
  }

  /** From the working directory one can stay, go up, or go down by one name. */
  lemma OneStep(cwd: Str, c: Str)
    requires c != [] && NoSlash(c) && c != [DOT] && c != [DOT, DOT]
    ensures var here := Components(Normal(cwd, [DOT]));
            && Normal(cwd, []) == Normal(cwd, [DOT])
            && Components(Normal(cwd, [DOT, DOT])) == (if here == [] then [] else here[..|here| - 1])
            && Components(Normal(cwd, c)) == here + [Fold(c)]
  {
    StepStack(cwd, [DOT]);
    StepStack(cwd, [DOT, DOT]);
    StepStack(cwd, c);
    hide Normal, Components;
  }

  lemma StepStack(cwd: Str, c: Str)
    requires c != [] && NoSlash(c)
    ensures Components(Normal(cwd, c)) == Apply(Components(Normal(cwd, [])), c)
    ensures c == [DOT] ==> Normal(cwd, c) == Normal(cwd, [])
  {
    NormalCanonical(cwd, []);
    NormalCanonical(cwd, c);
    SingleComponent(c);
    assert Inputs(cwd, []) == Components(cwd) + [] == Components(cwd);
    assert Inputs(cwd, c) == Components(cwd) + [c];
    FoldedParts([], Components(cwd), [c], 0);
    FoldedOne(Folded([], Components(cwd)), c);
    hide Folded, Components;
  }

  /** A relative input is read behind the working directory, an absolute one by itself. */
  lemma FromWorkingDirectory(cwd: Str, input: Str)
    ensures input != [] && input[0] == SLASH ==> Normal(cwd, input) == Normal([], input)
    ensures input == [] || input[0] != SLASH ==> Normal(cwd, input) == Normal([], cwd + [SLASH] + input)
  {
    ComponentsAround(cwd, input);
    assert Components([]) + Components(cwd + [SLASH] + input) == Components(cwd + [SLASH] + input);
  }

  /** The buffer suffices exactly if the normal form of every front part of the path fits with its
      terminator. */
  lemma {:induction false} RoomExact(stack: seq<Str>, comps: seq<Str>, capacity: nat)
    requires capacity <= 2 * PATH_CAPACITY + 2 && Canonical(stack)
    requires forall i | 0 <= i < |comps| :: comps[i] != [] && NoSlash(comps[i])
    ensures AllFit(stack, comps, capacity) <==>
            forall i: nat | 0 < i <= |comps| :: |Rendered(Folded(stack, comps[..i]))| + 1 <= capacity
    decreases |comps|
  {
    if comps != [] {
      var next := Apply(stack, comps[0]);
      if comps[0] != [DOT] && comps[0] != [DOT, DOT] { FoldProper(comps[0]); }
      assert Canonical(next);
      ProperNonEmpty(next);
      StackLimitRedundant(next, capacity);
      RoomExact(next, comps[1..], capacity);
      assert comps[..1] == [comps[0]];
      FoldedOne(stack, comps[0]);
      forall i: nat | 0 < i < |comps| ensures Folded(stack, comps[..i + 1]) == Folded(next, comps[1..][..i]) {
        assert comps[..i + 1][1..] == comps[1..][..i];
      }
      hide Apply, Rendered, Fits;
      forall i: nat | 0 < i <= |comps|
        ensures |Rendered(Folded(stack, comps[..i]))| ==
                if i == 1 then |Rendered(next)| else |Rendered(Folded(next, comps[1..][..i - 1]))|
      {
        if i > 1 { assert Folded(stack, comps[..(i - 1) + 1]) == Folded(next, comps[1..][..i - 1]); }
      }
      RoomSplit(stack, comps, next, capacity);
    }
  }

  lemma RoomSplit(stack: seq<Str>, comps: seq<Str>, next: seq<Str>, capacity: nat)
    requires comps != []
    requires forall i: nat | 0 < i <= |comps| ::
               |Rendered(Folded(stack, comps[..i]))| ==
               if i == 1 then |Rendered(next)| else |Rendered(Folded(next, comps[1..][..i - 1]))|
    ensures (forall i: nat | 0 < i <= |comps| :: |Rendered(Folded(stack, comps[..i]))| + 1 <= capacity) <==>
            |Rendered(next)| + 1 <= capacity
            && forall i: nat | 0 < i <= |comps[1..]| :: |Rendered(Folded(next, comps[1..][..i]))| + 1 <= capacity
  {
    hide Rendered, Folded;
    if forall i: nat | 0 < i <= |comps| :: |Rendered(Folded(stack, comps[..i]))| + 1 <= capacity {
      assert |Rendered(Folded(stack, comps[..1]))| + 1 <= capacity;
      forall i: nat | 0 < i <= |comps[1..]| ensures |Rendered(Folded(next, comps[1..][..i]))| + 1 <= capacity {
        assert |Rendered(Folded(stack, comps[..i + 1]))| + 1 <= capacity;
      }
    }
  }

  lemma ProperNonEmpty(stack: seq<Str>)
    requires Canonical(stack)
    ensures forall i | 0 <= i < |stack| :: stack[i] != []
  {
    forall i | 0 <= i < |stack| ensures stack[i] != [] {
      assert Proper(stack[i]);
    }
  }

  /** Components take at least two characters each, so below 258 bytes the stack limit never bites. */
  lemma {:induction false} RenderedLength(stack: seq<Str>)
    requires forall i | 0 <= i < |stack| :: stack[i] != []
    ensures |Joined(stack)| >= 2 * |stack|
    decreases |stack|
  {
    if stack != [] {
      RenderedLength(stack[..|stack| - 1]);
      assert stack[|stack| - 1] != [];
    }
  }

  lemma StackLimitRedundant(stack: seq<Str>, capacity: nat)
    requires capacity <= 2 * PATH_CAPACITY + 2 && forall i | 0 <= i < |stack| :: stack[i] != []
    ensures Fits(stack, capacity) <==> |Rendered(stack)| < capacity
  {
    RenderedLength(stack);
  }

  // ------------------------------------------------------ the normaliser

  /** The output buffer with its write position and the start of every component on it. */
  class PathBuffer {
    const out: array<Byte>
    const starts: array<nat>
    var pos: nat
    var count: nat
    ghost var stack: seq<Str>

    ghost predicate Valid()
      reads this, out, starts
    {
      && starts.Length == PATH_CAPACITY && out.Length >= 2
      && pos < out.Length && out[..pos] == Rendered(stack) && out[pos] == 0
      && count == |stack| <= PATH_CAPACITY
      && (forall i | 0 <= i < |stack| :: stack[i] != [])
      && forall i | 0 <= i < count :: starts[i] == StartOf(stack, i)
    }

    constructor (out: array<Byte>)
      requires out.Length >= 2
      modifies out
      ensures Valid() && this.out == out && stack == [] && fresh(starts)
    {
      this.out := out;
      starts := new nat[PATH_CAPACITY];
      pos, count, stack := 1, 0, [];
      new;
      out[0] := SLASH;
      out[1] := 0;
    }

    /** `push_component`: appends the upper-case component unless the buffer is too small. */
    method Push(c: Str) returns (ok: bool)
      requires Valid() && c != []
      modifies this, out, starts
      ensures ok == Fits(old(stack) + [Fold(c)], out.Length)
      ensures ok ==> Valid() && stack == old(stack) + [Fold(c)]
    {
      ghost var was := stack;
      ghost var text := out[..pos];
      PushedLength(was, Fold(c));
      if count >= PATH_CAPACITY {
        return false;
      }
      if pos != 1 {
        if pos + 1 >= out.Length {
          return false;
        }
        out[pos] := SLASH;
        pos := pos + 1;
      }
      if pos + |c| >= out.Length {
        return false;
      }
      ghost var front := out[..pos];
      starts[count] := pos;
      CopyUpper(c);
      out[pos] := 0;
      count := count + 1;
      stack := was + [Fold(c)];
      Pushed(was, Fold(c), text, front);
      forall i | 0 <= i < |was| ensures StartOf(stack, i) == StartOf(was, i) {
        StartKept(was, Fold(c), i);
      }
      ok := true;
    }

    method CopyUpper(c: Str)
      requires pos + |c| < out.Length
      modifies this`pos, out
      ensures pos == old(pos) + |c|
      ensures out[..pos] == old(out[..pos]) + Fold(c)
    {
      ghost var from := pos;
      for i := 0 to |c|
        invariant pos == from + i < out.Length
        invariant out[..pos] == old(out[..pos]) + Fold(c[..i])
      {
        out[pos] := ToUpper(c[i]);
        pos := pos + 1;
        assert out[..pos] == out[..pos - 1] + [ToUpper(c[i])];
        assert Fold(c[..i + 1]) == Fold(c[..i]) + [ToUpper(c[i])];
      }
      assert c[..|c|] == c;
    }

    /** `pop_component`: drops the last component, if there is one. */
    method Pop()
      requires Valid()
      modifies this, out
      ensures Valid() && stack == if old(stack) == [] then [] else old(stack)[..|old(stack)| - 1]
    {
      hide Rendered, StartOf, Joined;
      RootRendered();
      if count == 0 {
        pos := 1;
        out[1] := 0;
        return;
      }
      ghost var was := stack;
      ghost var rest := was[..|was| - 1];
      Popped(was);
      StartsKept(was);
      count := count - 1;
      var start := starts[count];
      pos := if start > 1 then start - 1 else 1;
      out[pos] := 0;
      stack := rest;
      assert out[..pos] == Rendered(was)[..pos];
    }

    lemma StartsKept(was: seq<Str>)
      requires was != []
      ensures var rest := was[..|was| - 1];
              forall i | 0 <= i < |rest| :: StartOf(rest, i) == StartOf(was, i)
    {
      var rest := was[..|was| - 1];
      assert was == rest + [was[|was| - 1]];
      forall i | 0 <= i < |rest| ensures StartOf(rest, i) == StartOf(was, i) {
        StartKept(rest, was[|was| - 1], i);
      }
    }

    /** One component of the input: dropped, popping, or pushed. */
    method Take(c: Str) returns (ok: bool)
      requires Valid() && c != []
      modifies this, out, starts
      ensures ok == Fits(Apply(old(stack), c), out.Length)
      ensures ok ==> Valid() && stack == Apply(old(stack), c)
    {
      hide Rendered, StartOf, Fits;
      FittingStack(this);
      if c == [DOT] {
      } else if c == [DOT, DOT] {
        Pop();
        FittingStack(this);
      } else {
        ok := Push(c);
        return;
      }
      ok := true;
    }

    /** The next component of `path` and the slashes behind it. */
    method TakeNext(path: Str, cursor: nat) returns (ok: bool, next: nat)
      requires Valid() && cursor < |path| && path[cursor] != SLASH
      modifies this, out, starts
      ensures Components(path[cursor..]) != []
      ensures ok == Fits(Apply(old(stack), Components(path[cursor..])[0]), out.Length)
      ensures ok ==> Valid() && stack == Apply(old(stack), Components(path[cursor..])[0])
      ensures ok ==> cursor < next <= |path| && (next < |path| ==> path[next] != SLASH)
                     && Components(path[next..]) == Components(path[cursor..])[1..]
    {
      var len := CountHead(path, cursor);
      hide *;
      NextComponent(path, cursor, len);
      var c := path[cursor..cursor + len];
      ok := Take(c);
      next := cursor;
      if ok {
        next := SkipFrom(path, cursor + len);
      }
    }

    /** `absorb_path`: folds the components of a path into the buffer. */
    method Absorb(path: Str) returns (ok: bool)
      requires Valid()
      modifies this, out, starts
      ensures ok == AllFit(old(stack), Components(path), out.Length)
      ensures ok ==> Valid() && stack == Folded(old(stack), Components(path))
    {
      hide *;
      var cursor := SkipFrom(path, 0);
      WholePath(path);
      ghost var first, all := stack, Components(path);
      ghost var rest := all;
      while cursor < |path|
        invariant cursor <= |path| && (cursor < |path| ==> path[cursor] != SLASH)
        invariant Valid() && rest == Components(path[cursor..])
        invariant AllFit(first, all, out.Length) == AllFit(stack, rest, out.Length)
        invariant Folded(first, all) == Folded(stack, rest)
      {
        ghost var was := stack;
        ok, cursor := TakeNext(path, cursor);
        NextFolded(was, rest, out.Length);
        if !ok {
          return;
        }
        rest := rest[1..];
      }
      NothingLeft(path);
      NothingFolded(stack, out.Length);
      ok := true;
    }
  }

  lemma WholePath(path: Str)
    ensures Components(path[0..]) == Components(path)
  {
    assert path[0..] == path;
  }

  method SkipFrom(path: Str, from: nat) returns (next: nat)
    requires from <= |path|
    ensures from <= next <= |path| && (next < |path| ==> path[next] != SLASH)
    ensures Components(path[next..]) == Components(path[from..])
  {
    hide *;
    var slashes := CountSlashes(path, from);
    SkipSlashes(path[from..]);
    DropTwice(path, from, slashes);
    next := from + slashes;
  }

  lemma NothingLeft(path: Str)
    ensures Components(path[|path|..]) == []
  {
    assert path[|path|..] == [];
  }

  lemma NothingFolded(stack: seq<Str>, capacity: nat)
    ensures Folded(stack, []) == stack && AllFit(stack, [], capacity)
  {
  }

  lemma DropTwice(s: Str, a: nat, b: nat)
    requires a + b <= |s|
    ensures s[a..][b..] == s[a + b..]
  {
    hide *;
  }

  method CountSlashes(path: Str, from: nat) returns (n: nat)
    requires from <= |path|
    ensures n == LeadingSlashes(path[from..])
    ensures from + n <= |path| && (from + n < |path| ==> path[from + n] != SLASH)
  {
    n := 0;
    while from + n < |path| && path[from + n] == SLASH
      invariant from + n <= |path|
      invariant LeadingSlashes(path[from..]) == n + LeadingSlashes(path[from + n..])
    {
      assert path[from + n..][1..] == path[from + n + 1..];
      n := n + 1;
    }
  }

  method CountHead(path: Str, from: nat) returns (n: nat)
    requires from < |path| && path[from] != SLASH
    ensures n == HeadLength(path[from..]) > 0 && from + n <= |path|
  {
    n := 0;
    while from + n < |path| && path[from + n] != SLASH
      invariant from + n <= |path|
      invariant HeadLength(path[from..]) == n + HeadLength(path[from + n..])
    {
      assert path[from + n..][1..] == path[from + n + 1..];
      n := n + 1;
    }
  }

  lemma NextComponent(path: Str, cursor: nat, n: nat)
    requires cursor < |path| && path[cursor] != SLASH && n == HeadLength(path[cursor..])
    ensures 0 < n <= |path| - cursor && path[cursor..cursor + n] != []
    ensures var comps := Components(path[cursor..]);
            comps != [] && comps[0] == path[cursor..cursor + n] && comps[1..] == Components(path[cursor + n..])
  {
    hide HeadLength;
    var tail := path[cursor..];
    assert tail[..n] == path[cursor..cursor + n];
    assert tail[n..] == path[cursor + n..];
    assert Components(tail) == [tail[..n]] + Components(tail[n..]);
  }

  lemma NextFolded(stack: seq<Str>, comps: seq<Str>, capacity: nat)
    requires comps != []
    ensures Folded(stack, comps) == Folded(Apply(stack, comps[0]), comps[1..])
    ensures AllFit(stack, comps, capacity) ==
              (Fits(Apply(stack, comps[0]), capacity) && AllFit(Apply(stack, comps[0]), comps[1..], capacity))
  {
  }

  /** `path_normalize`: succeeds exactly when every intermediate path fits, and then leaves the
      normal form, terminated, in the buffer. */
  method Normalize(cwd: Str, input: Str, out: array<Byte>) returns (ok: bool)
    requires out.Length >= 2
    modifies out
    ensures ok == AllFit([], Inputs(cwd, input), out.Length)
    ensures ok ==> (|Normal(cwd, input)| < out.Length
                    && out[..|Normal(cwd, input)|] == Normal(cwd, input) && out[|Normal(cwd, input)|] == 0)
  {
    var buffer := new PathBuffer(out);
    FoldedParts([], if input != [] && input[0] == SLASH then [] else Components(cwd), Components(input), out.Length);
    if input == [] || input[0] != SLASH {
      ok := buffer.Absorb(cwd);
      if !ok {
        return;
      }
    }
    ok := buffer.Absorb(input);
  }

  lemma {:induction false} FoldedParts(stack: seq<Str>, a: seq<Str>, b: seq<Str>, capacity: nat)
    ensures Folded(stack, a + b) == Folded(Folded(stack, a), b)
    ensures AllFit(stack, a + b, capacity) == (AllFit(stack, a, capacity) && AllFit(Folded(stack, a), b, capacity))
    decreases |a|
  {
    if a == [] {
      assert a + b == b;
    } else {
      assert (a + b)[1..] == a[1..] + b;
      FoldedParts(Apply(stack, a[0]), a[1..], b, capacity);
    }
  }

  // --------------------------------------------------------- buffer layout

  /** Where component `i` starts in the rendered stack. */
  function StartOf(stack: seq<Str>, i: nat): nat
    requires i < |stack|
  {
    |Joined(stack[..i])| + 1
  }

  lemma PushedLength(stack: seq<Str>, c: Str)
    requires c != [] && forall i | 0 <= i < |stack| :: stack[i] != []
    ensures |Rendered(stack + [c])| == (if stack == [] then 1 else |Rendered(stack)| + 1) + |c|
    ensures |Rendered(stack)| == 1 <==> stack == []
  {
    assert (stack + [c])[..|stack|] == stack;
    RenderedLength(stack);
  }

  lemma Pushed(stack: seq<Str>, c: Str, text: Str, front: Str)
    requires c != [] && text == Rendered(stack)
    requires front == if stack == [] then text else text + [SLASH]
    ensures front + c == Rendered(stack + [c])
    ensures StartOf(stack + [c], |stack|) == |front|
  {
    assert (stack + [c])[..|stack|] == stack;
  }

  lemma StartKept(stack: seq<Str>, c: Str, i: nat)
    requires i < |stack|
    ensures StartOf(stack + [c], i) == StartOf(stack, i)
  {
    assert (stack + [c])[..i] == stack[..i];
  }

  lemma RootRendered()
    ensures Rendered([]) == [SLASH]
  {
  }

  lemma Popped(stack: seq<Str>)
    requires stack != [] && forall i | 0 <= i < |stack| :: stack[i] != []
    ensures var rest := stack[..|stack| - 1];
            var start := StartOf(stack, |stack| - 1);
            var pos := if start > 1 then start - 1 else 1;
            pos <= |Rendered(stack)| && Rendered(stack)[..pos] == Rendered(rest)
  {
    RenderedLength(stack[..|stack| - 1]);
  }

  lemma FittingStack(buffer: PathBuffer)
    requires buffer.Valid()
    ensures Fits(buffer.stack, buffer.out.Length)
  {
  }
}
