/** A program's arguments: cut from the command line, laid out in one buffer, and handed over in
    the program's own memory. */
module ProgramArgs {
  import opened Bytes

  const MAX_ARGS := 8
  const BUFFER_SIZE := 256

  /** Where the argument buffer lies in the user's context: behind the info block, the argument
      vector and the working directory. */
  const CONTEXT_OFFSET := 32 + 64 + 128
  const CONTEXT_SIZE := CONTEXT_OFFSET + BUFFER_SIZE

  function Skipped(line: Str): (rest: Str)
    ensures |rest| <= |line| && (rest == [] || !IsSpace(rest[0]))
  {
    if line != [] && IsSpace(line[0]) then Skipped(line[1..]) else line
  }

  function FirstWord(line: Str): (w: Str)
    ensures |w| <= |line| && w == line[..|w|] && (forall c | c in w :: !IsSpace(c))
    ensures |w| < |line| ==> IsSpace(line[|w|])
  {
    if line == [] || IsSpace(line[0]) then [] else [line[0]] + FirstWord(line[1..])
  }

  /** The maximal runs without white space. */
  function Words(line: Str): (ws: seq<Str>)
    ensures forall w | w in ws :: w != []
    decreases |line|
  {
    var rest := Skipped(line);
    if rest == [] then []
    else
      var w := FirstWord(rest);
      assert w != [];
      [w] + Words(rest[|w|..])
  }

  /** White space is the blank, the tab, and the ends of lines. */
  lemma SpacesAre(c: Byte)
    ensures IsSpace(c) <==> c == 0x20 || c == 0x09 || c == 0x0A || c == 0x0D
  {
  }

  function Unspaced(line: Str): Str {
    if line == [] then [] else (if IsSpace(line[0]) then [] else [line[0]]) + Unspaced(line[1..])
  }

  function Glued(ws: seq<Str>): Str {
    if ws == [] then [] else ws[0] + Glued(ws[1..])
  }

  predicate Blank(s: Str) {
    forall c | c in s :: IsSpace(c)
  }

  predicate Solid(w: Str) {
    forall c | c in w :: !IsSpace(c)
  }

  lemma {:induction false} SkippedBlank(s: Str, rest: Str)
    requires Blank(s)
    ensures Skipped(s + rest) == Skipped(rest)
    decreases |s|
  {
    if s == [] {
      assert s + rest == rest;
    } else {
      assert s[0] in s && forall c | c in s[1..] :: c in s;
      assert (s + rest)[1..] == s[1..] + rest;
      SkippedBlank(s[1..], rest);
    }
  }

  lemma {:induction false} FirstSolid(w: Str, rest: Str)
    requires Solid(w) && (rest == [] || IsSpace(rest[0]))
    ensures FirstWord(w + rest) == w
    decreases |w|
  {
    if w == [] {
      assert w + rest == rest;
    } else {
      assert w[0] in w && forall c | c in w[1..] :: c in w;
      assert (w + rest)[1..] == w[1..] + rest;
      FirstSolid(w[1..], rest);
      assert [w[0]] + w[1..] == w;
    }
  }

  /** A line of white space has no words. */
  lemma BlankLine(s: Str)
    requires Blank(s)
    ensures Words(s) == []
  {
    SkippedBlank(s, []);
    assert s + [] == s;
    hide Skipped;
    assert Skipped([]) == [];
  }

  /** The first word is what stands between white space, whatever characters it has. */
  lemma NextWord(s: Str, w: Str, rest: Str)
    requires Blank(s) && Solid(w) && w != [] && (rest == [] || IsSpace(rest[0]))
    ensures Words(s + w + rest) == [w] + Words(rest)
  {
    SkippedBlank(s, w + rest);
    assert s + (w + rest) == s + w + rest;
    assert (w + rest)[0] == w[0] && w[0] in w;
    assert Skipped(w + rest) == w + rest;
    FirstSolid(w, rest);
    assert (w + rest)[|w|..] == rest;
  }

  /** The words together are the line without its white space. */
  lemma {:induction false} WordsAreAll(line: Str)
    ensures Glued(Words(line)) == Unspaced(line)
    decreases |line|
  {
    var rest := Skipped(line);
    UnspacedSkipped(line);
    if rest != [] {
      var w := FirstWord(rest);
      assert w != [];
      WordsAreAll(rest[|w|..]);
      assert rest == w + rest[|w|..];
      UnspacedSolid(w, rest[|w|..]);
      assert ([w] + Words(rest[|w|..]))[1..] == Words(rest[|w|..]);
    }
  }

  lemma {:induction false} UnspacedSkipped(line: Str)
    ensures Unspaced(Skipped(line)) == Unspaced(line)
  {
    if line != [] && IsSpace(line[0]) { UnspacedSkipped(line[1..]); }
  }

  lemma {:induction false} UnspacedSolid(w: Str, rest: Str)
    requires Solid(w)
    ensures Unspaced(w + rest) == w + Unspaced(rest)
    decreases |w|
  {
    if w == [] {
      assert w + rest == rest;
    } else {
      assert w[0] in w && forall c | c in w[1..] :: c in w;
      assert (w + rest)[1..] == w[1..] + rest;
      UnspacedSolid(w[1..], rest);
    }
  }

  /** Words one after the other, each with its terminator. */
  function Laid(ws: seq<Str>): seq<Byte> {
    if ws == [] then [] else Laid(ws[..|ws| - 1]) + ws[|ws| - 1] + [0]
  }

  lemma LaidSnoc(ws: seq<Str>, w: Str)
    ensures Laid(ws + [w]) == Laid(ws) + w + [0]
  {
    assert (ws + [w])[..|ws|] == ws;
  }

  lemma LaidUpTo(ws: seq<Str>, i: nat)
    requires i < |ws|
    ensures Laid(ws[..i + 1]) == Laid(ws[..i]) + ws[i] + [0]
  {
    assert ws[..i + 1][..i] == ws[..i];
  }

  lemma {:induction false} LaidPrefix(ws: seq<Str>, i: nat)
    requires i <= |ws|
    ensures |Laid(ws[..i])| <= |Laid(ws)| && Laid(ws)[..|Laid(ws[..i])|] == Laid(ws[..i])
    decreases |ws| - i
  {
    if i < |ws| {
      LaidPrefix(ws, i + 1);
      assert ws[..i + 1][..i] == ws[..i];
      assert Laid(ws[..i + 1]) == Laid(ws[..i]) + ws[i] + [0];
      assert Laid(ws)[..|Laid(ws[..i + 1])|][..|Laid(ws[..i])|] == Laid(ws)[..|Laid(ws[..i])|];
    } else {
      assert ws[..i] == ws;
    }
  }

  /** A buffer that starts with the words laid out reads back each of them at its place. */
  lemma LaidReads(buffer: seq<Byte>, ws: seq<Str>, i: nat)
    requires i < |ws| && |Laid(ws)| <= |buffer| && buffer[..|Laid(ws)|] == Laid(ws) && 0 !in ws[i]
    ensures |Laid(ws[..i])| < |buffer| && CStr(buffer[|Laid(ws[..i])|..]) == ws[i]
  {
    hide Laid, CStr;
    var before, w := Laid(ws[..i]), ws[i];
    LaidPrefix(ws, i + 1);
    LaidUpTo(ws, i);
    var end := |before| + |w| + 1;
    assert buffer[..end] == buffer[..|Laid(ws)|][..end];
    assert buffer[|before|..][..|w| + 1] == buffer[..end][|before|..] == w + [0];
    assert buffer[|before|..][..|w|] == w;
    CStrReads(buffer[|before|..], w);
  }

  /** The command and the words of its line. */
  function All(command: Str, line: Str): seq<Str> {
    [command] + Words(line)
  }

  ghost predicate Fits(command: Str, line: Str) {
    command != [] && |All(command, line)| <= MAX_ARGS && |Laid(All(command, line))| <= BUFFER_SIZE
  }

  /** The buffer copied to the program's stack, and where in it each argument starts and ends. */
  ghost predicate Passed(ws: seq<Str>, stackBase: nat, user: seq<Byte>, vector: seq<nat>) {
    && |user| == BUFFER_SIZE && |vector| == |ws|
    && forall i: nat | i < |ws| && 0 !in ws[i] ::
         && stackBase + CONTEXT_OFFSET <= vector[i] < stackBase + CONTEXT_SIZE
         && CStr(user[vector[i] - (stackBase + CONTEXT_OFFSET)..]) == ws[i]
  }

  function Lengths(ws: seq<Str>): nat {
    if ws == [] then 0 else |ws[0]| + 1 + Lengths(ws[1..])
  }

  lemma {:induction false} LaidLength(ws: seq<Str>)
    ensures |Laid(ws)| == Lengths(ws)
    decreases |ws|
  {
    if ws != [] {
      var front := ws[..|ws| - 1];
      LaidLength(front);
      LengthsSnoc(front, ws[|ws| - 1]);
      assert front + [ws[|ws| - 1]] == ws;
    }
  }

  lemma {:induction false} LengthsSnoc(ws: seq<Str>, w: Str)
    ensures Lengths(ws + [w]) == Lengths(ws) + |w| + 1
  {
    if ws == [] {
      assert [] + [w] == [w] && [w][1..] == [];
    } else {
      assert (ws + [w])[1..] == ws[1..] + [w];
      LengthsSnoc(ws[1..], w);
    }
  }

  /** Which command lines are accepted: a command, with at most seven words behind it, that take
      256 bytes at most with their terminators. */
  lemma FitsTold(command: Str, line: Str)
    ensures Fits(command, line) <==>
            command != [] && |Words(line)| <= 7 && |command| + 1 + Lengths(Words(line)) <= 256
  {
    LaidLength(All(command, line));
    assert ([command] + Words(line))[1..] == Words(line);
    hide Words, Laid;
  }

  class Arguments {
    const base: nat            // the address of the buffer
    const buffer: array<Byte>
    const argv: array<nat>
    var argc: nat

    predicate Shaped() {
      buffer.Length == BUFFER_SIZE && argv.Length == MAX_ARGS
    }

    constructor (base: nat)
      ensures Shaped() && this.base == base && fresh(buffer) && fresh(argv)
    {
      this.base := base;
      buffer := new Byte[BUFFER_SIZE](_ => 0);
      argv := new nat[MAX_ARGS](_ => 0);
      argc := 0;
    }

    /** Buffer and vector hold exactly the words `ws`. */
    ghost predicate Holds(ws: seq<Str>)
      reads buffer, argv
    {
      && Shaped() && |ws| <= MAX_ARGS && |Laid(ws)| <= BUFFER_SIZE && buffer[..|Laid(ws)|] == Laid(ws)
      && forall i: nat | i < |ws| :: argv[i] == base + |Laid(ws[..i])|
    }

    lemma HoldsParts(ws: seq<Str>)
      requires Holds(ws)
      ensures Shaped() && |Laid(ws)| <= BUFFER_SIZE && buffer[..|Laid(ws)|] == Laid(ws)
      ensures forall i: nat | i < |ws| :: i < argv.Length && argv[i] == base + |Laid(ws[..i])|
    {
      hide Laid;
    }

    lemma HoldsMore(ws: seq<Str>, w: Str, vector: seq<nat>)
      requires Shaped() && |ws| < MAX_ARGS && |Laid(ws + [w])| <= BUFFER_SIZE
      requires buffer[..|Laid(ws + [w])|] == Laid(ws + [w])
      requires |vector| == MAX_ARGS && forall i: nat | i < |ws| :: vector[i] == base + |Laid(ws[..i])|
      requires argv[..] == vector[|ws| := base + |Laid(ws)|]
      ensures Holds(ws + [w])
    {
      hide Laid;
      var more := ws + [w];
      forall i: nat | i < |more| ensures argv[i] == base + |Laid(more[..i])| {
        assert argv[i] == argv[..][i];
        assert more[..i] == ws[..i];
        assert i == |ws| ==> ws[..i] == ws;
      }
    }

    /** One argument and its terminator, unless there is no room. */
    method AddWord(w: Str, start: nat, ghost ws: seq<Str>) returns (ok: bool, end: nat)
      requires Holds(ws) && |ws| == argc < MAX_ARGS && w != [] && start == |Laid(ws)|
      modifies this`argc, buffer, argv
      ensures Shaped()
      ensures ok <==> |Laid(ws + [w])| <= BUFFER_SIZE
      ensures ok ==> Holds(ws + [w]) && argc == |ws| + 1 && end == |Laid(ws + [w])|
    {
      hide Laid, Holds;
      LaidSnoc(ws, w);
      HoldsParts(ws);
      ghost var vector := argv[..];
      ok, end := PutWord(w, start);
      if !ok {
        return;
      }
      argv[argc] := base + start;
      argc := argc + 1;
      HoldsMore(ws, w, vector);
    }

    /** The inner loop: the characters of one word, then 0. */
    method PutWord(w: Str, start: nat) returns (ok: bool, end: nat)
      requires Shaped() && w != [] && start <= BUFFER_SIZE
      modifies buffer
      ensures ok <==> start + |w| + 1 <= BUFFER_SIZE
      ensures ok ==> end == start + |w| + 1 && buffer[..end] == old(buffer[..start]) + w + [0]
    {
      ghost var laid := buffer[..start];
      end := start;
      for j := 0 to |w|
        invariant end == start + j <= BUFFER_SIZE && buffer[..end] == laid + w[..j]
        invariant j > 0 ==> end < BUFFER_SIZE
      {
        if end + 1 >= BUFFER_SIZE {
          return false, end;
        }
        buffer[end] := w[j];
        end := end + 1;
        assert buffer[..end] == buffer[..end - 1] + [w[j]];
      }
      buffer[end] := 0;
      end := end + 1;
      assert buffer[..end] == buffer[..end - 1] + [0];
      ok := true;
    }

    /** `process_tokenize_args`: it succeeds exactly when there is a command, at most eight words,
        and room for them all; then every argument pointer leads to its word. */
    method Tokenize(command: Str, line: Str) returns (ok: bool)
      requires Shaped()
      modifies this`argc, buffer, argv
      ensures Shaped()
      ensures ok <==> Fits(command, line)
      ensures ok ==> argc == |All(command, line)| && Holds(All(command, line))
    {
      forall i | 0 <= i < buffer.Length { buffer[i] := 0; }
      forall i | 0 <= i < argv.Length { argv[i] := 0; }
      argc := 0;
      if command == [] {
        return false;
      }
      FirstLaid(command, Words(line));
      hide Laid, Words;
      var offset;
      ok, offset := AddWord(command, 0, []);
      if !ok {
        return;
      }
      ok := AddWords(command, line, offset);
    }

    /** The loop over the line. */
    method AddWords(command: Str, line: Str, from: nat) returns (ok: bool)
      requires Holds([command]) && argc == 1 && from == |Laid([command])| && command != []
      modifies this`argc, buffer, argv
      ensures Shaped()
      ensures ok <==> Fits(command, line)
      ensures ok ==> argc == |All(command, line)| && Holds(All(command, line))
    {
      hide Laid, Words, Skipped, FirstWord;
      var cursor, offset := 0, from;
      ghost var done := [command];
      assert line[cursor..] == line;
      while cursor < |line|
        invariant cursor <= |line| && done + Words(line[cursor..]) == All(command, line)
        invariant Holds(done) && argc == |done| && offset == |Laid(done)|
        decreases |line| - cursor
      {
        var start := SkipSpaces(line, cursor);
        WordsFrom(line, cursor, start);
        if start == |line| {
          cursor := start;
          NoWords(line, cursor);
          break;
        }
        if argc >= MAX_ARGS {
          return false;
        }
        var end := WordEnd(line, start);
        var w := line[start..end];
        FirstLaid2(done, w, Words(line[end..]));
        assert done + ([w] + Words(line[end..])) == (done + [w]) + Words(line[end..]);
        ok, offset := AddWord(w, offset, done);
        if !ok {
          return;
        }
        done := done + [w];
        cursor := end;
      }
      NoWords(line, cursor);
      assert done + [] == done;
      ok := true;
    }

    method SkipSpaces(line: Str, from: nat) returns (to: nat)
      requires from <= |line|
      ensures from <= to <= |line| && line[to..] == Skipped(line[from..])
    {
      to := from;
      while to < |line| && IsSpace(line[to])
        invariant from <= to <= |line| && Skipped(line[to..]) == Skipped(line[from..])
      {
        assert line[to..][1..] == line[to + 1..];
        to := to + 1;
      }
    }

    method WordEnd(line: Str, from: nat) returns (to: nat)
      requires from < |line| && !IsSpace(line[from])
      ensures from < to <= |line| && line[from..to] == FirstWord(line[from..])
    {
      hide *;
      to := from;
      assert line[from..from] + FirstWord(line[from..]) == FirstWord(line[from..]);
      while to < |line| && !IsSpace(line[to])
        invariant from <= to <= |line| && FirstWord(line[from..]) == line[from..to] + FirstWord(line[to..])
        invariant to == from ==> to < |line| && !IsSpace(line[to])
      {
        WordGoesOn(line, from, to);
        to := to + 1;
      }
      WordStops(line, to);
      assert line[from..to] + [] == line[from..to];
    }

    /** `process_stage_user_context`, the part that hands the arguments over: the buffer copied into
        the program's own memory at `stackBase`, the pointers moved with it.  It never fails. */
    method Stage(stackBase: nat, stackSize: nat, ghost ws: seq<Str>)
                 returns (ok: bool, user: seq<Byte>, vector: seq<nat>)
      requires Holds(ws) && argc == |ws| && CONTEXT_SIZE <= stackSize
      ensures ok && Passed(ws, stackBase, user, vector)
    {
      user, vector := buffer[..], [];
      ok := true;
      for index := 0 to argc
        invariant |vector| == index && forall i: nat | i < index ::
                  vector[i] == stackBase + CONTEXT_OFFSET + (argv[i] - base)
        invariant ok
      {
        StartsInside(index, ws);
        if argv[index] < base || argv[index] - base >= BUFFER_SIZE {
          ok := false;
        }
        vector := vector + [stackBase + CONTEXT_OFFSET + (argv[index] - base)];
      }
      forall i: nat | i < |ws| && 0 !in ws[i]
        ensures stackBase + CONTEXT_OFFSET <= vector[i] < stackBase + CONTEXT_SIZE
        ensures CStr(user[vector[i] - (stackBase + CONTEXT_OFFSET)..]) == ws[i]
      {
        LaidReads(user, ws, i);
      }
    }

    lemma StartsInside(i: nat, ws: seq<Str>)
      requires Holds(ws) && i < |ws|
      ensures base <= argv[i] < base + BUFFER_SIZE
    {
      LaidPrefix(ws, i + 1);
      assert ws[..i + 1][..i] == ws[..i];
      assert |Laid(ws[..i + 1])| == |Laid(ws[..i])| + |ws[i]| + 1;
    }
  }

  lemma WordGoesOn(line: Str, from: nat, to: nat)
    requires from <= to < |line| && !IsSpace(line[to])
    ensures line[from..to] + FirstWord(line[to..]) == line[from..to + 1] + FirstWord(line[to + 1..])
  {
    WordUnfolds(line, to);
    hide FirstWord, IsSpace;
    assert line[from..to + 1] == line[from..to] + [line[to]];
  }

  lemma WordUnfolds(line: Str, to: nat)
    requires to < |line| && !IsSpace(line[to])
    ensures FirstWord(line[to..]) == [line[to]] + FirstWord(line[to + 1..])
  {
    assert line[to..][1..] == line[to + 1..];
  }

  lemma WordStops(line: Str, to: nat)
    requires to <= |line| && (to < |line| ==> IsSpace(line[to]))
    ensures FirstWord(line[to..]) == []
  {
  }

  lemma {:induction false} LongerLaid(ws: seq<Str>, more: seq<Str>)
    ensures |Laid(ws)| <= |Laid(ws + more)|
  {
    LaidPrefix(ws + more, |ws|);
    assert (ws + more)[..|ws|] == ws;
  }

  lemma FirstLaid(command: Str, more: seq<Str>)
    ensures [] + [command] == [command] && |Laid([])| == 0 && |Laid([command])| <= |Laid([command] + more)|
    ensures Laid([command]) == command + [0]
  {
    LongerLaid([command], more);
    LaidSnoc([], command);
    assert [] + [command] == [command];
  }

  lemma FirstLaid2(done: seq<Str>, w: Str, more: seq<Str>)
    ensures |Laid(done + [w])| <= |Laid(done + [w] + more)|
  {
    LongerLaid(done + [w], more);
  }

  lemma NoWords(line: Str, cursor: nat)
    requires cursor <= |line|
    ensures cursor == |line| ==> Words(line[cursor..]) == []
  {
  }

  /** What remains of a line after its leading white space, word by word. */
  lemma WordsFrom(line: Str, cursor: nat, start: nat)
    requires cursor <= start <= |line| && line[start..] == Skipped(line[cursor..])
    ensures start == |line| ==> Words(line[cursor..]) == []
    ensures start < |line| ==>
              var w := FirstWord(line[start..]);
              !IsSpace(line[start]) && w != [] && start + |w| <= |line| && line[start..start + |w|] == w
              && Words(line[cursor..]) == [w] + Words(line[start + |w|..])
  {
    hide FirstWord, Skipped, IsSpace;
    WordsUnfold(line[cursor..]);
    if start < |line| {
      FirstIs(line, start, FirstWord(line[start..]));
    }
  }

  lemma WordsUnfold(line: Str)
    ensures var rest := Skipped(line);
            if rest == [] then Words(line) == []
            else !IsSpace(rest[0]) && FirstWord(rest) != [] && |FirstWord(rest)| <= |rest|
                 && Words(line) == [FirstWord(rest)] + Words(rest[|FirstWord(rest)|..])
  {
  }

  lemma FirstIs(line: Str, start: nat, w: Str)
    requires start < |line| && |w| <= |line[start..]| && w == line[start..][..|w|]
    ensures line[start..][0] == line[start] && line[start..start + |w|] == w
    ensures line[start..][|w|..] == line[start + |w|..]
  {
  }
}
