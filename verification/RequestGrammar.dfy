/** The byte sequences that the request parser takes for commands of many keys, as a grammar: printed
    commands, but for zeros in front of numbers, and nothing else. */
module RequestGrammar {
  import opened Bytes
  import opened Options
  import opened AofFormat
  import opened RequestFormat

  // ----- the grammar --------------------------------------------------------------------------

  /** A tag, digits and the end of their line. */
  ghost predicate Counts(s: seq<byte>, tag: byte, n: nat)
  {
    exists h: seq<byte> :: AllDigits(h) && n == DigitsValue(h) && s == [tag] + (h + CRLF)
  }

  /** A byte string with its length in front. */
  ghost predicate IsText(s: seq<byte>, text: seq<byte>)
  {
    exists k :: 0 <= k <= |s| && Counts(s[..k], DOLLAR, |text|) && s[k..] == text + CRLF
  }

  ghost predicate IsTexts(s: seq<byte>, texts: Argv)
    decreases |texts|
  {
    if texts == [] then s == [] else
    exists k :: 0 <= k <= |s| && IsText(s[..k], texts[0]) && IsTexts(s[k..], texts[1..])
  }

  /** A count, a name in any case that is in the table, and as many arguments as counted. */
  ghost predicate IsCommand(s: seq<byte>, name: seq<byte>, c: Cmd, args: Argv)
  {
    && Lower(name) == Name(c) && GoodCount(c, |args| + 1)
    && exists k :: 0 <= k <= |s| && Counts(s[..k], STAR, |args| + 1) && IsTexts(s[k..], [name] + args)
  }

  ghost predicate IsCommands(s: seq<byte>)
    decreases |s|
  {
    s == [] || exists k :: 0 < k <= |s| && BeginsWith(s, k) && IsCommands(s[k..])
  }

  ghost predicate BeginsWith(s: seq<byte>, k: nat)
    requires k <= |s|
  {
    exists name: seq<byte>, c: Cmd, args: Argv :: IsCommand(s[..k], name, c, args)
  }

  // ----- the phases of the parser --------------------------------------------------------------

  /** The parser's phase, which does not depend on what has been cut off. */
  function StepPhase(p: Phase, ch: byte): Phase { Step(State(p, []), ch, false).state.phase }

  function Phases(p: Phase, b: seq<byte>): Phase
    decreases |b|
  {
    if b == [] then p else StepPhase(Phases(p, b[..|b| - 1]), b[|b| - 1])
  }

  lemma StepIs(s: State, ch: byte, split: bool)
    ensures Step(s, ch, split).state.phase == StepPhase(s.phase, ch)
  {
  }

  lemma {:induction false} CutsPhase(s: State, b: seq<byte>, split: bool)
    ensures Cuts(s, b, split).state.phase == Phases(s.phase, b)
    decreases |b|
  {
    hide Step, StepPhase;
    if b != [] {
      var t := Step(s, b[0], split);
      StepIs(s, b[0], split);
      CutsPhase(t.state, b[1..], split);
      OnePhase(s.phase, b[0]);
      PhasesAppend(s.phase, [b[0]], b[1..]);
      assert [b[0]] + b[1..] == b;
    }
  }

  lemma OnePhase(p: Phase, ch: byte)
    ensures Phases(p, [ch]) == StepPhase(p, ch)
  {
    hide StepPhase;
    assert [ch][..0] == [] && Phases(p, []) == p;
  }

  lemma {:induction false} PhasesAppend(p: Phase, a: seq<byte>, b: seq<byte>)
    ensures Phases(p, a + b) == Phases(Phases(p, a), b)
    decreases |b|
  {
    hide StepPhase;
    if b == [] {
      assert a + b == a;
    } else {
      var n := |b| - 1;
      PhasesAppend(p, a, b[..n]);
      assert (a + b)[..|a| + n] == a + b[..n];
    }
  }

  lemma PhasesNext(p: Phase, b: seq<byte>, k: nat)
    requires k < |b|
    ensures Phases(p, b[..k + 1]) == StepPhase(Phases(p, b[..k]), b[k])
  {
    hide StepPhase;
    assert b[..k + 1][..k] == b[..k];
  }

  lemma PhasesNone(p: Phase, b: seq<byte>)
    ensures Phases(p, b[..0]) == p
  {
  }

  lemma {:induction false} Dead(p: Phase, b: seq<byte>)
    requires p in {Failed, OtherCommand}
    ensures Phases(p, b) == p
    decreases |b|
  {
    if b != [] { Dead(p, b[..|b| - 1]); }
  }

  // ----- the parser takes all of these ------------------------------------------------------------

  lemma {:induction false} DigitPhases(use: Use, h: seq<byte>)
    requires AllDigits(h)
    ensures Phases(Number(use, 0), h) == Number(use, DigitsValue(h))
    decreases |h|
  {
    if h != [] { DigitPhases(use, h[..|h| - 1]); }
  }

  lemma CountPhases(p: Phase, s: seq<byte>, tag: byte, n: nat, use: Use)
    requires Counts(s, tag, n) && StepPhase(p, tag) == Number(use, 0)
    ensures Phases(p, s) == StepPhase(EndNumber(use, n), LF)
  {
    hide StepPhase, Phases;
    var h :| AllDigits(h) && n == DigitsValue(h) && s == [tag] + (h + CRLF);
    OnePhase(p, tag);
    PhasesAppend(p, [tag], h + CRLF);
    PhasesAppend(Number(use, 0), h, CRLF);
    DigitPhases(use, h);
    LineEnd(Number(use, n));
    NumberEnds(use, n);
  }

  lemma NumberEnds(use: Use, n: nat)
    ensures StepPhase(Number(use, n), CR) == EndNumber(use, n)
  {
  }

  lemma LineEnd(p: Phase)
    ensures Phases(p, CRLF) == StepPhase(StepPhase(p, CR), LF)
  {
    hide StepPhase;
    OnePhase(p, CR);
    assert CRLF[..1] == [CR];
  }

  lemma {:induction false} NamePhases(n: int, len: int, name: seq<byte>)
    requires |name| <= len
    ensures Phases(CmdBody(n, len, []), name) == CmdBody(n, len, Lower(name))
    decreases |name|
  {
    if name != [] {
      NamePhases(n, len, name[..|name| - 1]);
      LowerMore(name);
    }
  }

  lemma LowerMore(name: seq<byte>)
    requires name != []
    ensures Lower(name) == Lower(name[..|name| - 1]) + [LowerByte(name[|name| - 1])] && |Lower(name)| == |name|
  {
  }

  lemma {:induction false} BodyPhases(c: Cmd, n: int, i: int, len: int, b: seq<byte>)
    requires |b| <= len
    ensures Phases(ArgBody(c, n, i, len, 0), b) == ArgBody(c, n, i, len, |b|)
    decreases |b|
  {
    if b != [] { BodyPhases(c, n, i, len, b[..|b| - 1]); }
  }

  /** What an argument goes through. */
  lemma ArgSteps(c: Cmd, n: int, i: int, len: nat)
    ensures StepPhase(ArgTag(c, n, i), DOLLAR) == Number(ArgLength(c, n, i), 0)
    ensures StepPhase(EndNumber(ArgLength(c, n, i), len), LF) == ArgBody(c, n, i, len, 0)
    ensures StepPhase(StepPhase(ArgBody(c, n, i, len, len), CR), LF) == if i + 1 == n then Idle else ArgTag(c, n, i + 1)
  {
  }

  lemma ArgPhases(s: seq<byte>, arg: seq<byte>, c: Cmd, n: int, i: int)
    requires IsText(s, arg)
    ensures Phases(ArgTag(c, n, i), s) == if i + 1 == n then Idle else ArgTag(c, n, i + 1)
  {
    hide Phases, Counts, StepPhase;
    ArgSteps(c, n, i, |arg|);
    var k :| 0 <= k <= |s| && Counts(s[..k], DOLLAR, |arg|) && s[k..] == arg + CRLF;
    assert s == s[..k] + (arg + CRLF);
    CountPhases(ArgTag(c, n, i), s[..k], DOLLAR, |arg|, ArgLength(c, n, i));
    var body := ArgBody(c, n, i, |arg|, 0);
    PhasesAppend(ArgTag(c, n, i), s[..k], arg + CRLF);
    PhasesAppend(body, arg, CRLF);
    BodyPhases(c, n, i, |arg|, arg);
    LineEnd(ArgBody(c, n, i, |arg|, |arg|));
  }

  lemma {:induction false} ArgsPhases(s: seq<byte>, args: Argv, c: Cmd, n: int, i: int)
    requires IsTexts(s, args) && args != [] && i + |args| == n
    ensures Phases(ArgTag(c, n, i), s) == Idle
    decreases |args|
  {
    hide Phases, IsText;
    var k :| 0 <= k <= |s| && IsText(s[..k], args[0]) && IsTexts(s[k..], args[1..]);
    assert s == s[..k] + s[k..];
    ArgPhases(s[..k], args[0], c, n, i);
    if |args| == 1 {
      assert s[..k] == s;
    } else {
      PhasesAppend(ArgTag(c, n, i), s[..k], s[k..]);
      ArgsPhases(s[k..], args[1..], c, n, i + 1);
    }
  }

  /** What a name goes through. */
  lemma NameSteps(c: Cmd, n: int, len: nat)
    requires len == |Name(c)| && GoodCount(c, n)
    ensures StepPhase(CmdTag(n), DOLLAR) == Number(CmdLength(n), 0)
    ensures StepPhase(EndNumber(CmdLength(n), len), LF) == CmdBody(n, len, [])
    ensures StepPhase(StepPhase(CmdBody(n, len, Name(c)), CR), LF) == if n == 1 then Idle else ArgTag(c, n, 1)
  {
    hide Name, Find;
    FindName(c);
  }

  lemma TextParts(s: seq<byte>, text: seq<byte>) returns (head: seq<byte>)
    requires IsText(s, text)
    ensures Counts(head, DOLLAR, |text|) && s == head + (text + CRLF)
  {
    hide Counts;
    var k :| 0 <= k <= |s| && Counts(s[..k], DOLLAR, |text|) && s[k..] == text + CRLF;
    head := s[..k];
  }

  lemma {:induction false} NameEnds(s: seq<byte>, name: seq<byte>, c: Cmd, n: int)
    requires IsText(s, name) && Lower(name) == Name(c) && GoodCount(c, n)
    ensures Phases(CmdTag(n), s) == if n == 1 then Idle else ArgTag(c, n, 1)
  {
    hide *;
    var len := |name|;
    SameLength(name);
    NameSteps(c, n, len);
    var head := TextParts(s, name);
    CountPhases(CmdTag(n), head, DOLLAR, len, CmdLength(n));
    PhasesAppend(CmdTag(n), head, name + CRLF);
    PhasesAppend(CmdBody(n, len, []), name, CRLF);
    NamePhases(n, len, name);
    LineEnd(CmdBody(n, len, Lower(name)));
  }

  lemma SameLength(name: seq<byte>)
    ensures |Lower(name)| == |name|
  {
  }

  lemma CommandPhases(s: seq<byte>, name: seq<byte>, c: Cmd, args: Argv)
    requires IsCommand(s, name, c, args)
    ensures Phases(Idle, s) == Idle
  {
    hide Phases, Counts, IsText, Name, GoodCount;
    var n := |args| + 1;
    var all := [name] + args;
    var k :| 0 <= k <= |s| && Counts(s[..k], STAR, n) && IsTexts(s[k..], all);
    var rest := s[k..];
    var j :| 0 <= j <= |rest| && IsText(rest[..j], all[0]) && IsTexts(rest[j..], all[1..]);
    assert all[1..] == args;
    assert s == s[..k] + (rest[..j] + rest[j..]);
    CountPhases(Idle, s[..k], STAR, n, ArgCount);
    PhasesAppend(Idle, s[..k], rest[..j] + rest[j..]);
    NameEnds(rest[..j], name, c, n);
    PhasesAppend(CmdTag(n), rest[..j], rest[j..]);
    if n == 1 {
      PhasesNone(Idle, rest);
    } else {
      ArgsPhases(rest[j..], args, c, n, 1);
    }
  }

  lemma {:induction false} CommandsPhases(s: seq<byte>)
    requires IsCommands(s)
    ensures Phases(Idle, s) == Idle
    decreases |s|
  {
    hide Phases, IsCommand;
    PhasesNone(Idle, s);
    if s == [] {
      assert s[..0] == s;
    } else {
      var k :| 0 < k <= |s| && BeginsWith(s, k) && IsCommands(s[k..]);
      var name: seq<byte>, c: Cmd, args: Argv :| IsCommand(s[..k], name, c, args);
      CommandPhases(s[..k], name, c, args);
      CommandsPhases(s[k..]);
      PhasesAppend(Idle, s[..k], s[k..]);
      assert s[..k] + s[k..] == s;
    }
  }

  // ----- and nothing else --------------------------------------------------------------------------

  /** After k bytes of b the phase is p, and in the end it is Idle. */
  ghost predicate At(b: seq<byte>, k: nat, p: Phase)
  {
    k <= |b| && Phases(Idle, b[..k]) == p && Phases(Idle, b) == Idle
  }

  lemma Next(b: seq<byte>, k: nat, p: Phase)
    requires At(b, k, p) && (p != Idle || k < |b|)
    ensures k < |b| && At(b, k + 1, StepPhase(p, b[k])) && StepPhase(p, b[k]) !in {Failed, OtherCommand}
  {
    hide StepPhase, Phases;
    assert b[..|b|] == b;
    if k < |b| {
      PhasesNext(Idle, b, k);
      var m := StepPhase(p, b[k]);
      if m in {Failed, OtherCommand} {
        assert b == b[..k + 1] + b[k + 1..];
        PhasesAppend(Idle, b[..k + 1], b[k + 1..]);
        Dead(m, b[k + 1..]);
      }
    }
  }

  lemma NumberStep(use: Use, n: nat, ch: byte)
    requires StepPhase(Number(use, n), ch) !in {Failed, OtherCommand}
    ensures ch == CR || IsDigit(ch)
    ensures StepPhase(Number(use, n), ch) == if ch == CR then EndNumber(use, n) else Number(use, n * 10 + (ch - ZERO))
  {
  }

  lemma NumberLine(use: Use, n: nat, ch: byte)
    requires EndNumber(use, n) !in {Failed, OtherCommand} && StepPhase(EndNumber(use, n), ch) !in {Failed, OtherCommand}
    ensures ch == LF && (!use.ArgLength? ==> n > 0) && EndNumber(use, n) != Idle
    ensures StepPhase(EndNumber(use, n), ch) == EndNumberLF(use, n)
  {
  }

  lemma DigitsMore(h: seq<byte>, ch: byte)
    requires AllDigits(h) && IsDigit(ch)
    ensures AllDigits(h + [ch]) && DigitsValue(h + [ch]) == DigitsValue(h) * 10 + (ch - ZERO)
  {
    assert (h + [ch])[..|h|] == h;
  }

  /** A number whose tag is at place j. */
  lemma CountEnds(b: seq<byte>, j: nat, p: Phase, use: Use) returns (k: nat, n: nat)
    requires At(b, j, p) && j < |b| && StepPhase(p, b[j]) == Number(use, 0)
    ensures j < k <= |b| && Counts(b[j..k], b[j], n) && At(b, k, EndNumberLF(use, n)) && (!use.ArgLength? ==> n > 0)
  {
    hide Phases, StepPhase, At;
    Next(b, j, p);
    k, n := j + 1, 0;
    AtIs(b, k, Number(use, 0));
    assert b[j + 1..k] == [];
    Next(b, k, Number(use, n));
    while b[k] != CR
      invariant j + 1 <= k < |b| && At(b, k, Number(use, n)) && AllDigits(b[j + 1..k]) && n == DigitsValue(b[j + 1..k])
      invariant StepPhase(Number(use, n), b[k]) !in {Failed, OtherCommand}
      invariant At(b, k + 1, StepPhase(Number(use, n), b[k]))
      decreases |b| - k
    {
      NumberStep(use, n, b[k]);
      DigitsMore(b[j + 1..k], b[k]);
      assert b[j + 1..k + 1] == b[j + 1..k] + [b[k]];
      n := n * 10 + (b[k] - ZERO);
      k := k + 1;
      Next(b, k, Number(use, n));
    }
    NumberStep(use, n, CR);
    NotIdle(use, n);
    Next(b, k + 1, EndNumber(use, n));
    NumberLine(use, n, b[k + 1]);
    var h := b[j + 1..k];
    k := k + 2;
    assert b[j..k] == [b[j]] + (h + CRLF);
  }

  lemma NotIdle(use: Use, n: nat)
    ensures EndNumber(use, n) != Idle
  {
  }

  lemma AtIs(b: seq<byte>, k: nat, p: Phase)
    requires At(b, k, p)
    ensures k <= |b|
  {
  }

  lemma TextIs(b: seq<byte>, i: nat, j: nat, k: nat, text: seq<byte>)
    requires i <= j <= k <= |b| && Counts(b[i..j], DOLLAR, |text|) && b[j..k] == text + CRLF
    ensures IsText(b[i..k], text)
  {
    hide Counts;
    assert b[i..k][..j - i] == b[i..j] && b[i..k][j - i..] == b[j..k];
  }

  /** The body of an argument, and the line's end. */
  lemma ArgEnds(b: seq<byte>, i: nat, c: Cmd, n: int, a: int) returns (k: nat, arg: seq<byte>)
    requires At(b, i, ArgTag(c, n, a))
    ensures i < k <= |b| && IsText(b[i..k], arg) && At(b, k, if a + 1 == n then Idle else ArgTag(c, n, a + 1))
  {
    hide Phases, At, Counts, IsText;
    Next(b, i, ArgTag(c, n, a));
    assert b[i] == DOLLAR;
    var j, len := CountEnds(b, i, ArgTag(c, n, a), ArgLength(c, n, a));
    var m := 0;
    while m < len
      invariant m <= len && j + m <= |b| && At(b, j + m, ArgBody(c, n, a, len, m))
    {
      Next(b, j + m, ArgBody(c, n, a, len, m));
      m := m + 1;
    }
    Next(b, j + m, ArgBody(c, n, a, len, m));
    Next(b, j + m + 1, ArgBodyLF(c, n, a));
    k := j + m + 2;
    arg := b[j..j + m];
    assert b[j..k] == arg + CRLF;
    TextIs(b, i, j, k, arg);
  }

  lemma {:induction false} ArgsEnd(b: seq<byte>, i: nat, c: Cmd, n: int, a: int) returns (k: nat, args: Argv)
    requires At(b, i, ArgTag(c, n, a)) && 0 < a < n
    ensures i < k <= |b| && |args| == n - a && IsTexts(b[i..k], args) && At(b, k, Idle)
    decreases n - a
  {
    hide Phases, At, Counts, IsText, IsTexts;
    var j, arg := ArgEnds(b, i, c, n, a);
    if a + 1 == n {
      k, args := j, [arg];
      NoTexts();
      assert b[i..k][j - i..] == [] && b[i..k][..j - i] == b[i..j];
      FirstText(b[i..k], j - i, arg, []);
      assert [arg] + [] == [arg];
    } else {
      var more;
      k, more := ArgsEnd(b, j, c, n, a + 1);
      args := [arg] + more;
      assert b[i..k][j - i..] == b[j..k] && b[i..k][..j - i] == b[i..j];
      FirstText(b[i..k], j - i, arg, more);
    }
  }

  lemma NoTexts()
    ensures IsTexts([], [])
  {
  }

  lemma FirstText(s: seq<byte>, k: nat, text: seq<byte>, more: Argv)
    requires k <= |s| && IsText(s[..k], text) && IsTexts(s[k..], more)
    ensures IsTexts(s, [text] + more)
  {
    hide IsText;
    assert ([text] + more)[1..] == more;
  }

  /** The name, after the count. */
  lemma NameEnd(b: seq<byte>, i: nat, n: nat) returns (k: nat, name: seq<byte>, c: Cmd)
    requires At(b, i, CmdTag(n))
    ensures i < k <= |b| && IsText(b[i..k], name) && Lower(name) == Name(c) && GoodCount(c, n)
    ensures At(b, k, if n == 1 then Idle else ArgTag(c, n, 1))
  {
    hide Phases, At, Counts, IsText, Find, Name, GoodCount, Lower;
    Next(b, i, CmdTag(n));
    assert b[i] == DOLLAR;
    var j, len := CountEnds(b, i, CmdTag(n), CmdLength(n));
    if len >= MAX_CMD_LEN {
      NeverIdle(b, j);
    }
    var m := 0;
    assert b[j..j + 0] == [] && Lower([]) == [];
    while m < len
      invariant m <= len && j + m <= |b| && At(b, j + m, CmdBody(n, len, Lower(b[j..j + m])))
      invariant |Lower(b[j..j + m])| == m
    {
      Next(b, j + m, CmdBody(n, len, Lower(b[j..j + m])));
      var t := b[j..j + m + 1];
      assert t[..|t| - 1] == b[j..j + m];
      LowerMore(t);
      m := m + 1;
    }
    name := b[j..j + m];
    Next(b, j + m, CmdBody(n, len, Lower(name)));
    Next(b, j + m + 1, CmdBodyLF(n, Lower(name)));
    k := j + m + 2;
    c := Find(Lower(name)).value;
    assert b[j..k] == name + CRLF;
    TextIs(b, i, j, k, name);
  }

  lemma NeverIdle(b: seq<byte>, k: nat)
    requires k <= |b|
    ensures !At(b, k, OtherCommand)
  {
    hide Phases;
    assert b == b[..k] + b[k..];
    PhasesAppend(Idle, b[..k], b[k..]);
    Dead(OtherCommand, b[k..]);
  }

  lemma CommandEnds(b: seq<byte>) returns (k: nat)
    requires b != [] && Phases(Idle, b) == Idle
    ensures 0 < k <= |b| && BeginsWith(b, k) && Phases(Idle, b[..k]) == Idle
  {
    hide Phases, Counts, IsText, IsTexts, Name, GoodCount;
    PhasesNone(Idle, b);
    Next(b, 0, Idle);
    assert b[0] == STAR;
    var i, n := CountEnds(b, 0, Idle, ArgCount);
    var j, name, c := NameEnd(b, i, n);
    var args := [];
    k := j;
    NoTexts();
    assert b[j..j] == [];
    if n > 1 { k, args := ArgsEnd(b, j, c, n, 1); }
    assert b[..k][i..][..j - i] == b[i..j] && b[..k][i..][j - i..] == b[j..k];
    FirstText(b[..k][i..], j - i, name, args);
    assert b[..k][..i] == b[0..i];
    assert IsCommand(b[..k], name, c, args);
  }

  lemma {:induction false} CommandsEnd(b: seq<byte>)
    requires Phases(Idle, b) == Idle
    ensures IsCommands(b)
    decreases |b|
  {
    hide Phases, IsCommand, BeginsWith;
    if b != [] {
      var k := CommandEnds(b);
      assert b == b[..k] + b[k..];
      PhasesAppend(Idle, b[..k], b[k..]);
      CommandsEnd(b[k..]);
    }
  }

  /** The parser has taken all the bytes, and waits for the next command, iff they are commands,
      whether or not it splits them. */
  lemma Accepts(b: seq<byte>, split: bool)
    ensures Cuts(START, b, split).state.phase == Idle <==> IsCommands(b)
  {
    hide Phases, IsCommands, Cuts;
    CutsPhase(START, b, split);
    if IsCommands(b) { CommandsPhases(b); }
    if Phases(Idle, b) == Idle { CommandsEnd(b); }
  }
}
