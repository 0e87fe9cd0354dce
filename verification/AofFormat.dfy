/** The append-only file format: how a command is printed, how the loader reads
    it back, and what the loader sees of a command that was cut short. */
module AofFormat {
  import opened Bytes

  type Argv = seq<seq<byte>>

  /** A command the printer can be given: an int argument count, long lengths. */
  ghost predicate Storable(argv: Argv)
  {
    && 1 <= |argv| <= 0x7fff_ffff
    && StorableArgs(argv)
  }

  ghost predicate StorableArgs(args: Argv)
  {
    forall a :: a in args ==> |a| <= 0x7fff_ffff_ffff_ffff
  }

  // ----- printing ------------------------------------------------------------

  function Header(mark: byte, n: nat): seq<byte> { [mark] + Digits(n) + CRLF }

  function PrintArg(arg: seq<byte>): (s: seq<byte>)
    ensures |s| >= 1
  {
    Header(DOLLAR, |arg|) + arg + CRLF
  }

  function PrintArgs(args: Argv): seq<byte>
  {
    if args == [] then [] else PrintArg(args[0]) + PrintArgs(args[1..])
  }

  function PrintCommand(argv: Argv): (s: seq<byte>)
    ensures |s| >= 4
  {
    Header(STAR, |argv|) + PrintArgs(argv)
  }

  function PrintAll(log: seq<Argv>): seq<byte>
  {
    if log == [] then [] else PrintCommand(log[0]) + PrintAll(log[1..])
  }

  lemma {:induction false} PrintArgsAppend(a: Argv, b: Argv)
    ensures PrintArgs(a + b) == PrintArgs(a) + PrintArgs(b)
  {
    if a == [] {
      assert a + b == b;
    } else {
      assert (a + b)[1..] == a[1..] + b;
      PrintArgsAppend(a[1..], b);
    }
  }

  lemma {:induction false} PrintAllAppend(a: seq<Argv>, b: seq<Argv>)
    ensures PrintAll(a + b) == PrintAll(a) + PrintAll(b)
  {
    if a == [] {
      assert a + b == b;
    } else {
      assert (a + b)[1..] == a[1..] + b;
      PrintAllAppend(a[1..], b);
    }
  }

  lemma PrintAllSnoc(log: seq<Argv>, argv: Argv)
    ensures PrintAll(log + [argv]) == PrintAll(log) + PrintCommand(argv)
  {
    PrintAllAppend(log, [argv]);
    assert PrintAll([argv]) == PrintCommand(argv) + PrintAll([]);
  }

  lemma PrintArgsPrefix(argv: Argv, j: nat)
    requires j < |argv|
    ensures PrintArgs(argv[..j + 1]) == PrintArgs(argv[..j]) + PrintArg(argv[j])
  {
    assert argv[..j + 1] == argv[..j] + [argv[j]];
    PrintArgsAppend(argv[..j], [argv[j]]);
    assert PrintArgs([argv[j]]) == PrintArg(argv[j]) + PrintArgs([]);
  }

  lemma CatStep(dst: seq<byte>, h: seq<byte>, done: seq<byte>, len: seq<byte>, arg: seq<byte>)
    ensures dst + (h + done) + ([DOLLAR] + len + [CR, LF]) + arg + [CR, LF]
         == dst + (h + (done + ([DOLLAR] + len + CRLF + arg + CRLF)))
  {
  }

  /** catAppendOnlyGenericCommand: the printed command is appended to dst. */
  method CatAppendOnlyGenericCommand(dst: seq<byte>, argv: Argv) returns (r: seq<byte>)
    ensures r == dst + PrintCommand(argv)
  {
    var buf := [STAR] + Digits(|argv|) + [CR, LF];
    r := dst + buf;
    ghost var h := Header(STAR, |argv|);
    var j := 0;
    while j < |argv|
      invariant 0 <= j <= |argv|
      invariant r == dst + (h + PrintArgs(argv[..j]))
    {
      buf := [DOLLAR] + Digits(|argv[j]|) + [CR, LF];
      PrintArgsPrefix(argv, j);
      CatStep(dst, h, PrintArgs(argv[..j]), Digits(|argv[j]|), argv[j]);
      r := r + buf;
      r := r + argv[j];
      r := r + [CR, LF];
      j := j + 1;
    }
    assert argv[..j] == argv;
  }

  // ----- reading -------------------------------------------------------------

  /** Why the loader stopped in the middle of a command. `eof` is feof(fp). */
  datatype Stop = ReadError(eof: bool) | FormatError | LengthOutOfRange

  datatype ArgResult = Arg(arg: seq<byte>, rest: seq<byte>) | ArgStop(stop: Stop)
  datatype ArgsResult = Args(args: Argv, rest: seq<byte>) | ArgsStop(stop: Stop)
  datatype CommandResult = AtEof | Command(argv: Argv, rest: seq<byte>) | CommandStop(stop: Stop)

  /** sizeof(buf) - 1 in the loader. */
  const LINE_LIMIT := 127

  /** How many bytes fgets stores: up to and including a line feed, at most `limit`. */
  function LineLength(s: seq<byte>, limit: nat): (n: nat)
    ensures n <= |s| && n <= limit
    ensures s != [] && limit > 0 ==> n >= 1
    ensures forall i :: 0 <= i < n - 1 ==> s[i] != LF
    ensures n < |s| && n < limit ==> n >= 1 && s[n - 1] == LF
  {
    if s == [] || limit == 0 then 0
    else if s[0] == LF then 1
    else 1 + LineLength(s[1..], limit - 1)
  }

  /** One "$<len>\r\n<bytes>\r\n". The two bytes after the body are skipped unread. */
  function ReadArg(s: seq<byte>): (r: ArgResult)
    ensures r.Arg? ==> |r.rest| < |s|
  {
    if s == [] then ArgStop(ReadError(true)) else
    var n := LineLength(s, LINE_LIMIT);
    var line := s[..n];
    if line[0] != DOLLAR then ArgStop(FormatError) else
    var len := Strtol(line[1..]);
    var body := s[n..];
    if len < 0 then ArgStop(LengthOutOfRange)
    else if len > |body| then ArgStop(ReadError(true))
    else if |body| - len < 2 then ArgStop(ReadError(true))
    else Arg(body[..len], body[len + 2..])
  }

  function ReadArgs(s: seq<byte>, count: nat): (r: ArgsResult)
    ensures r.Args? ==> |r.rest| <= |s| && |r.args| == count
    decreases count
  {
    if count == 0 then Args([], s) else
    match ReadArg(s)
    case ArgStop(stop) => ArgsStop(stop)
    case Arg(arg, rest) =>
      match ReadArgs(rest, count - 1)
      case ArgsStop(stop) => ArgsStop(stop)
      case Args(args, rest') => Args([arg] + args, rest')
  }

  function ReadCommand(s: seq<byte>): (r: CommandResult)
    ensures r.Command? ==> |r.rest| < |s| && |r.argv| >= 1
  {
    if s == [] then AtEof else
    var n := LineLength(s, LINE_LIMIT);
    var line := s[..n];
    if line[0] != STAR then CommandStop(FormatError)
    else if n == 1 || line[1] == NUL then
      CommandStop(ReadError(n == |s| && n < LINE_LIMIT && line[n - 1] != LF))
    else
      var argc := Strtol(line[1..]);
      if argc < 1 then CommandStop(FormatError) else
      match ReadArgs(s[n..], argc)
      case ArgsStop(stop) => CommandStop(stop)
      case Args(argv, rest) => Command(argv, rest)
  }

  // ----- the reader undoes the printer ----------------------------------------

  lemma {:induction false} LineOf(h: seq<byte>, tail: seq<byte>, limit: nat)
    requires forall i :: 0 <= i < |h| ==> h[i] != LF
    requires |h| < limit
    ensures LineLength(h + [LF] + tail, limit) == |h| + 1
  {
    if h != [] {
      assert (h + [LF] + tail)[1..] == h[1..] + [LF] + tail;
      LineOf(h[1..], tail, limit - 1);
    }
  }

  lemma {:induction false} UnfinishedLine(h: seq<byte>, limit: nat)
    requires forall i :: 0 <= i < |h| ==> h[i] != LF
    requires |h| <= limit
    ensures LineLength(h, limit) == |h|
  {
    if h != [] { UnfinishedLine(h[1..], limit - 1); }
  }

  lemma HeaderLine(mark: byte, n: nat, tail: seq<byte>)
    requires mark != LF && n < 0x1_0000_0000_0000_0000
    ensures var s := Header(mark, n) + tail;
            && LineLength(s, LINE_LIMIT) == |Header(mark, n)|
            && s[..|Header(mark, n)|] == Header(mark, n)
            && s[|Header(mark, n)|..] == tail
            && Strtol(Header(mark, n)[1..]) == n
  {
    var h := [mark] + Digits(n) + [CR];
    assert Header(mark, n) + tail == h + [LF] + tail;
    DigitsOfWord(n);
    LineOf(h, tail, LINE_LIMIT);
    assert Header(mark, n)[1..] == Digits(n) + CRLF;
    StrtolOfDigits(Digits(n), CRLF);
    DigitsRoundTrip(n);
  }

  /** A header cut before its line feed still reads as one short line, and a
      count that was not zero does not become zero. */
  lemma {:induction false} CutHeader(mark: byte, n: nat, p: seq<byte>)
    requires mark != LF && n < 0x1_0000_0000_0000_0000
    requires p != [] && p <= Header(mark, n) && |p| < |Header(mark, n)|
    ensures LineLength(p, LINE_LIMIT) == |p| && p[|p| - 1] != LF && p[0] == mark
    ensures |p| >= 2 ==> p[1] != NUL && Strtol(p[1..]) >= 0
    ensures |p| >= 2 && n >= 1 ==> Strtol(p[1..]) >= 1
  {
    DigitsOfWord(n);
    UnfinishedLine(p, LINE_LIMIT);
    if |p| >= 2 { CutCount(mark, n, p); }
  }

  lemma CutCount(mark: byte, n: nat, p: seq<byte>)
    requires 2 <= |p| < |Header(mark, n)| && p <= Header(mark, n)
    ensures Strtol(p[1..]) >= 0 && (n >= 1 ==> Strtol(p[1..]) >= 1)
  {
    var d := Digits(n);
    var k := if |p| <= |d| + 1 then |p| - 1 else |d|;
    var tail := p[k + 1..];
    assert p[1..] == d[..k] + tail;
    StrtolOfDigits(d[..k], tail);
    if n >= 1 {
      LeadingDigit(n);
      PositiveValue(d[..k]);
    }
  }

  lemma ReadPrintedArg(arg: seq<byte>, tail: seq<byte>)
    requires |arg| <= 0x7fff_ffff_ffff_ffff
    ensures ReadArg(PrintArg(arg) + tail) == Arg(arg, tail)
  {
    var s := PrintArg(arg) + tail;
    var after := arg + CRLF + tail;
    assert s == Header(DOLLAR, |arg|) + after;
    HeaderLine(DOLLAR, |arg|, after);
    assert after[..|arg|] == arg && after[|arg| + 2..] == tail;
  }

  lemma ReadCutArg(arg: seq<byte>, p: seq<byte>)
    requires |arg| <= 0x7fff_ffff_ffff_ffff
    requires p <= PrintArg(arg) && |p| < |PrintArg(arg)|
    ensures ReadArg(p) == ArgStop(ReadError(true))
  {
    var h := Header(DOLLAR, |arg|);
    if p == [] {
    } else if |p| < |h| {
      assert p <= h by { assert PrintArg(arg)[..|p|] == h[..|p|]; }
      CutHeader(DOLLAR, |arg|, p);
      if |p| == 1 { assert p[1..] == []; }
    } else {
      assert PrintArg(arg) == h + (arg + CRLF);
      assert p == h + p[|h|..];
      HeaderLine(DOLLAR, |arg|, p[|h|..]);
    }
  }

  lemma {:induction false} ReadPrintedArgs(args: Argv, tail: seq<byte>)
    requires StorableArgs(args)
    ensures ReadArgs(PrintArgs(args) + tail, |args|) == Args(args, tail)
  {
    if args == [] {
      assert PrintArgs(args) + tail == tail;
    } else {
      var more := PrintArgs(args[1..]) + tail;
      assert PrintArgs(args) + tail == PrintArg(args[0]) + more;
      ReadPrintedArg(args[0], more);
      ReadPrintedArgs(args[1..], tail);
      assert [args[0]] + args[1..] == args;
    }
  }

  lemma {:induction false} ReadCutArgs(args: Argv, p: seq<byte>)
    requires StorableArgs(args)
    requires p <= PrintArgs(args) && |p| < |PrintArgs(args)|
    ensures ReadArgs(p, |args|) == ArgsStop(ReadError(true))
  {
    var first := PrintArg(args[0]);
    if |p| < |first| {
      assert p <= first by { assert PrintArgs(args)[..|p|] == first[..|p|]; }
      ReadCutArg(args[0], p);
    } else {
      var q := p[|first|..];
      assert p == first + q;
      assert q <= PrintArgs(args[1..]) by {
        assert PrintArgs(args)[|first|..] == PrintArgs(args[1..]);
      }
      ReadPrintedArg(args[0], q);
      ReadCutArgs(args[1..], q);
    }
  }

  lemma ReadCommandOfHeader(argv: Argv, q: seq<byte>)
    requires Storable(argv)
    ensures ReadCommand(Header(STAR, |argv|) + q) ==
      match ReadArgs(q, |argv|)
      case ArgsStop(stop) => CommandStop(stop)
      case Args(args, rest) => Command(args, rest)
  {
    var h := Header(STAR, |argv|);
    HeaderLine(STAR, |argv|, q);
    assert h[1] == Digits(|argv|)[0];
  }

  /** With no cut the loader gets the argument vector back, arbitrary bytes included. */
  lemma ReadPrintedCommand(argv: Argv, tail: seq<byte>)
    requires Storable(argv)
    ensures ReadCommand(PrintCommand(argv) + tail) == Command(argv, tail)
  {
    var after := PrintArgs(argv) + tail;
    assert PrintCommand(argv) + tail == Header(STAR, |argv|) + after;
    ReadCommandOfHeader(argv, after);
    ReadPrintedArgs(argv, tail);
  }

  /** A count cut short promises some arguments, and none is there. */
  lemma ReadCutCount(argv: Argv, p: seq<byte>)
    requires Storable(argv)
    requires p != [] && p <= Header(STAR, |argv|) && |p| < |Header(STAR, |argv|)|
    ensures ReadCommand(p) == CommandStop(ReadError(true))
  {
    CutHeader(STAR, |argv|, p);
    assert p[..|p|] == p && p[|p|..] == [];
    if |p| >= 2 {
      var argc := Strtol(p[1..]);
      assert ReadArgs([], argc) == ArgsStop(ReadError(true));
    }
  }

  /** Cut at any byte, a command reads as an unexpected end of file, never as a
      format error and never as a shorter command. */
  lemma ReadCutCommand(argv: Argv, p: seq<byte>)
    requires Storable(argv)
    requires p != [] && p <= PrintCommand(argv) && |p| < |PrintCommand(argv)|
    ensures ReadCommand(p) == CommandStop(ReadError(true))
  {
    var h := Header(STAR, |argv|);
    if |p| < |h| {
      assert p <= h by { assert PrintCommand(argv)[..|p|] == h[..|p|]; }
      ReadCutCount(argv, p);
    } else {
      var q := p[|h|..];
      assert p == h + q && q <= PrintArgs(argv);
      ReadCommandOfHeader(argv, q);
      ReadCutArgs(argv, q);
    }
  }
}
