/** Client requests as predixy's parser takes them apart: a command of many keys comes out in
    pieces, one for each key or for each pair of key and value. */
module RequestFormat {
  import opened Bytes
  import opened AofFormat
  import opened Options

  // ----- the commands of many keys -----------------------------------------------------------

  datatype Cmd = Del | Exists | Touch | Unlink | Mget | Mset | Msetnx
                 | Psubscribe | Punsubscribe | Subscribe | Unsubscribe
  datatype Mode = MultiKey | MultiKeyVal | SMultiKey
  const MAX_ARGS: nat := 100000000
  const MAX_CMD_LEN: nat := 32

  function ModeOf(c: Cmd): Mode
  {
    match c
    case Mset => MultiKeyVal
    case Msetnx => MultiKeyVal
    case Psubscribe => SMultiKey
    case Punsubscribe => SMultiKey
    case Subscribe => SMultiKey
    case Unsubscribe => SMultiKey
    case _ => MultiKey
  }

  function MinArgs(c: Cmd): nat
  {
    match c
    case Mset => 3
    case Msetnx => 3
    case Punsubscribe => 1
    case Unsubscribe => 1
    case _ => 2
  }

  function Name(c: Cmd): seq<byte>
  {
    match c
    case Del => [100, 101, 108]
    case Exists => [101, 120, 105, 115, 116, 115]
    case Touch => [116, 111, 117, 99, 104]
    case Unlink => [117, 110, 108, 105, 110, 107]
    case Mget => [109, 103, 101, 116]
    case Mset => [109, 115, 101, 116]
    case Msetnx => [109, 115, 101, 116, 110, 120]
    case Psubscribe => [112, 115, 117, 98, 115, 99, 114, 105, 98, 101]
    case Punsubscribe => [112, 117, 110, 115, 117, 98, 115, 99, 114, 105, 98, 101]
    case Subscribe => [115, 117, 98, 115, 99, 114, 105, 98, 101]
    case Unsubscribe => [117, 110, 115, 117, 98, 115, 99, 114, 105, 98, 101]
  }

  /** Command::find */
  function Find(name: seq<byte>): (c: Option<Cmd>)
    ensures c.Some? ==> Name(c.value) == name
  {
    if name == Name(Del) then Some(Del) else if name == Name(Exists) then Some(Exists)
    else if name == Name(Touch) then Some(Touch) else if name == Name(Unlink) then Some(Unlink)
    else if name == Name(Mget) then Some(Mget) else if name == Name(Mset) then Some(Mset)
    else if name == Name(Msetnx) then Some(Msetnx) else if name == Name(Psubscribe) then Some(Psubscribe)
    else if name == Name(Punsubscribe) then Some(Punsubscribe) else if name == Name(Subscribe) then Some(Subscribe)
    else if name == Name(Unsubscribe) then Some(Unsubscribe) else None
  }

  lemma FindName(c: Cmd)
    ensures Find(Name(c)) == Some(c) && 0 < |Name(c)| < MAX_CMD_LEN
  {
  }

  /** The bytes that stand before every piece of a split command. */
  function FixedHead(c: Cmd): seq<byte>
  {
    match c
    case Mget => [42, 50, 13, 10, 36, 52, 13, 10, 109, 103, 101, 116, 13, 10]
    case Mset => [42, 51, 13, 10, 36, 52, 13, 10, 109, 115, 101, 116, 13, 10]
    case Msetnx => [42, 51, 13, 10, 36, 54, 13, 10, 109, 115, 101, 116, 110, 120, 13, 10]
    case Touch => [42, 50, 13, 10, 36, 53, 13, 10, 116, 111, 117, 99, 104, 13, 10]
    case Exists => [42, 50, 13, 10, 36, 54, 13, 10, 101, 120, 105, 115, 116, 115, 13, 10]
    case Del => [42, 50, 13, 10, 36, 51, 13, 10, 100, 101, 108, 13, 10]
    case Unlink => [42, 50, 13, 10, 36, 54, 13, 10, 117, 110, 108, 105, 110, 107, 13, 10]
    case Psubscribe => [42, 50, 13, 10, 36, 49, 48, 13, 10, 112, 115, 117, 98, 115, 99, 114, 105, 98, 101, 13, 10]
    case Subscribe => [42, 50, 13, 10, 36, 57, 13, 10, 115, 117, 98, 115, 99, 114, 105, 98, 101, 13, 10]
    case Punsubscribe => [42, 50, 13, 10, 36, 49, 50, 13, 10, 112, 117, 110, 115, 117, 98, 115, 99, 114, 105,
                          98, 101, 13, 10]
    case Unsubscribe => [42, 50, 13, 10, 36, 49, 49, 13, 10, 117, 110, 115, 117, 98, 115, 99, 114, 105, 98, 101, 13, 10]
  }

  /** The length of the name, as the fixed heads have it. */
  function NameDigits(c: Cmd): seq<byte>
  {
    match c
    case Del => [51]
    case Exists => [54]
    case Touch => [53]
    case Unlink => [54]
    case Mget => [52]
    case Mset => [52]
    case Msetnx => [54]
    case Psubscribe => [49, 48]
    case Punsubscribe => [49, 50]
    case Subscribe => [57]
    case Unsubscribe => [49, 49]
  }

  lemma NameLength(c: Cmd)
    ensures Digits(|Name(c)|) == NameDigits(c)
  {
    var n := |Name(c)|;
    if n >= 10 { assert Digits(n) == Digits(1) + [ZERO + n % 10]; }
  }

  /** Head, length and name of a command, one after the other. */
  function HeadBytes(c: Cmd): seq<byte>
  {
    [STAR, if ModeOf(c) == MultiKeyVal then ZERO + 3 else ZERO + 2, CR, LF, DOLLAR] + NameDigits(c)
    + CRLF + Name(c) + CRLF
  }

  lemma HeadDelete()
    ensures FixedHead(Del) == HeadBytes(Del)
    ensures FixedHead(Unlink) == HeadBytes(Unlink)
  {
  }

  lemma HeadLook()
    ensures FixedHead(Exists) == HeadBytes(Exists)
    ensures FixedHead(Touch) == HeadBytes(Touch)
  {
  }

  lemma HeadGets()
    ensures FixedHead(Mget) == HeadBytes(Mget)
    ensures FixedHead(Mset) == HeadBytes(Mset)
  {
  }

  lemma HeadSetnx()
    ensures FixedHead(Msetnx) == HeadBytes(Msetnx)
    ensures FixedHead(Subscribe) == HeadBytes(Subscribe)
  {
  }

  lemma HeadPattern()
    ensures FixedHead(Psubscribe) == HeadBytes(Psubscribe)
  {
  }

  lemma HeadUnpattern()
    ensures FixedHead(Punsubscribe) == HeadBytes(Punsubscribe)
  {
  }

  lemma HeadUnsub()
    ensures FixedHead(Unsubscribe) == HeadBytes(Unsubscribe)
  {
  }

  lemma HeadParts(c: Cmd)
    ensures FixedHead(c) == HeadBytes(c)
  {
    hide FixedHead, HeadBytes;
    HeadDelete();
    HeadLook();
    HeadGets();
    HeadSetnx();
    HeadPattern();
    HeadUnpattern();
    HeadUnsub();
  }

  /** It is the start of a command of one key, or of one key and value. */
  lemma FixedHeadIsHeader(c: Cmd)
    ensures FixedHead(c) == Header(STAR, if ModeOf(c) == MultiKeyVal then 3 else 2) + PrintArg(Name(c))
  {
    HeadParts(c);
    NameLength(c);
    hide FixedHead, Name, NameDigits;
    var k, d := if ModeOf(c) == MultiKeyVal then 3 else 2, NameDigits(c);
    assert Digits(k) == [ZERO + k];
    assert Header(STAR, k) == [STAR, ZERO + k, CR, LF] by { hide Digits; }
    assert PrintArg(Name(c)) == [DOLLAR] + d + CRLF + Name(c) + CRLF by { hide Digits; }
    HeadConcat([STAR, ZERO + k, CR, LF], d, Name(c));
    assert [STAR, ZERO + k, CR, LF] + [DOLLAR] == [STAR, ZERO + k, CR, LF, DOLLAR];
  }

  lemma HeadConcat(h: seq<byte>, d: seq<byte>, name: seq<byte>)
    ensures h + ([DOLLAR] + d + CRLF + name + CRLF) == h + [DOLLAR] + d + CRLF + name + CRLF
  {
  }

  // ----- the parser, a byte at a time ------------------------------------------------------------

  /** What a number is read for. */
  datatype Use = ArgCount | CmdLength(n: int) | ArgLength(cmd: Cmd, n: int, i: int)

  datatype Phase =
    | Idle
    | Number(use: Use, len: int)
    | NumberLF(use: Use, len: int)
    | CmdTag(n: int)
    | CmdBody(n: int, len: int, name: seq<byte>)
    | CmdBodyLF(n: int, name: seq<byte>)
    | ArgTag(cmd: Cmd, n: int, i: int)
    | ArgBody(cmd: Cmd, n: int, i: int, len: int, cnt: int)
    | ArgBodyLF(cmd: Cmd, n: int, i: int)
    | OtherCommand
    | Failed

  /** `req` are the bytes since the place where the request in progress begins. */
  datatype State = State(phase: Phase, req: seq<byte>)

  const START := State(Idle, [])

  /** What parse returns: the bytes of the request, whether it is the last of its command,
      and the command with its number of arguments. */
  datatype Piece = Piece(req: seq<byte>, last: bool, cmd: Cmd, n: int)

  datatype Stepped = Stepped(state: State, out: Option<Piece>)

  /** A request begins at argument i, and if another one is in progress it ends before. */
  predicate IsSplit(c: Cmd, n: int, i: int, split: bool)
  {
    match ModeOf(c)
    case MultiKey => split && n > 2 && i > 0
    case MultiKeyVal => split && n > 3 && i % 2 == 1
    case SMultiKey => n > 2
  }

  predicate GoodCount(c: Cmd, n: int) { MinArgs(c) <= n <= MAX_ARGS && (ModeOf(c) == MultiKeyVal ==> n % 2 == 1) }

  function EndNumber(use: Use, len: int): Phase
  {
    match use
    case ArgCount => if len > 0 then NumberLF(use, len) else Failed
    case CmdLength(_) => if len > 0 then NumberLF(use, len) else Failed
    case ArgLength(_, _, _) => NumberLF(use, len)
  }

  function EndNumberLF(use: Use, len: int): Phase
  {
    match use
    case ArgCount => CmdTag(len)
    case CmdLength(n) => if len < MAX_CMD_LEN then CmdBody(n, len, []) else OtherCommand
    case ArgLength(c, n, i) => ArgBody(c, n, i, len, 0)
  }

  /** The command name is complete. */
  function EndName(n: int, name: seq<byte>, req: seq<byte>): Stepped
  {
    match Find(name)
    case None => Stepped(State(OtherCommand, req), None)
    case Some(c) =>
      if !GoodCount(c, n) then Stepped(State(OtherCommand, req), None)
      else if n == 1 then Stepped(START, Some(Piece(req, true, c, n)))
      else Stepped(State(ArgTag(c, n, 1), req), None)
  }

  /** Argument i is complete. */
  function EndArg(c: Cmd, n: int, i: int, req: seq<byte>, split: bool): Stepped
  {
    if i + 1 == n then Stepped(START, Some(Piece(req, true, c, n)))
    else Stepped(State(ArgTag(c, n, i + 1), req),
                 if IsSplit(c, n, i + 1, split) then Some(Piece(req, false, c, n)) else None)
  }

  function Go(p: Phase, req: seq<byte>): Stepped { Stepped(State(p, req), None) }

  function Step(s: State, ch: byte, split: bool): Stepped
  {
    var req := s.req + [ch];
    match s.phase
    case Idle => if ch == STAR then Go(Number(ArgCount, 0), [ch]) else Go(OtherCommand, req)
    case Number(use, len) =>
      if IsDigit(ch) then Go(Number(use, len * 10 + (ch - ZERO)), req)
      else if ch == CR then Go(EndNumber(use, len), req)
      else Go(Failed, req)
    case NumberLF(use, len) => if ch == LF then Go(EndNumberLF(use, len), req) else Go(Failed, req)
    case CmdTag(n) => if ch == DOLLAR then Go(Number(CmdLength(n), 0), req) else Go(Failed, req)
    case CmdBody(n, len, name) =>
      if |name| < len then Go(CmdBody(n, len, name + [LowerByte(ch)]), req)
      else if ch == CR then Go(CmdBodyLF(n, name), req)
      else Go(Failed, req)
    case CmdBodyLF(n, name) => if ch == LF then EndName(n, name, req) else Go(Failed, req)
    case ArgTag(c, n, i) =>
      if ch == DOLLAR then Go(Number(ArgLength(c, n, i), 0), if IsSplit(c, n, i, split) then [ch] else req)
          else Go(Failed, req)
    case ArgBody(c, n, i, len, cnt) =>
      if cnt < len then Go(ArgBody(c, n, i, len, cnt + 1), req)
      else if ch == CR then Go(ArgBodyLF(c, n, i), req)
      else Go(Failed, req)
    case ArgBodyLF(c, n, i) => if ch == LF then EndArg(c, n, i, req, split) else Go(Failed, req)
    case OtherCommand => Go(OtherCommand, req)
    case Failed => Go(Failed, req)
  }

  /** All pieces of a stream, and the state at its end. */
  datatype Cutting = Cutting(pieces: seq<Piece>, state: State)

  function Out(o: Option<Piece>): seq<Piece> { if o.Some? then [o.value] else [] }

  function Cuts(s: State, bytes: seq<byte>, split: bool): Cutting
    decreases |bytes|
  {
    if bytes == [] then Cutting([], s) else
    var t := Step(s, bytes[0], split);
    var r := Cuts(t.state, bytes[1..], split);
    Cutting(Out(t.out) + r.pieces, r.state)
  }

  lemma CutsFirst(s: State, ch: byte, more: seq<byte>, split: bool)
    ensures var t := Step(s, ch, split); var r := Cuts(t.state, more, split);
            Cuts(s, [ch] + more, split) == Cutting(Out(t.out) + r.pieces, r.state)
  {
    hide Step;
    assert ([ch] + more)[1..] == more;
  }

  lemma PiecesNone(a: seq<Piece>)
    ensures [] + a == a
  {
  }

  lemma PiecesAssoc(a: seq<Piece>, b: seq<Piece>, c: seq<Piece>)
    ensures a + (b + c) == a + b + c
  {
  }

  /** However the stream is chunked, the pieces are the same. */
  lemma {:induction false} CutsAppend(s: State, a: seq<byte>, b: seq<byte>, split: bool)
    ensures var r := Cuts(s, a, split); var q := Cuts(r.state, b, split);
            Cuts(s, a + b, split) == Cutting(r.pieces + q.pieces, q.state)
    decreases |a|
  {
    if a == [] {
      assert a + b == b;
      PiecesNone(Cuts(s, b, split).pieces);
    } else {
      hide Step, Cuts, Out;
      var t := Step(s, a[0], split);
      CutsAppend(t.state, a[1..], b, split);
      CutsFirst(s, a[0], a[1..] + b, split);
      CutsFirst(s, a[0], a[1..], split);
      HeadFirst(a, b);
      var r := Cuts(t.state, a[1..], split);
      PiecesAssoc(Out(t.out), r.pieces, Cuts(r.state, b, split).pieces);
    }
  }

  /** After an error there is nothing more. */
  lemma {:induction false} Absorbed(s: State, bytes: seq<byte>, split: bool)
    requires s.phase in {Failed, OtherCommand}
    ensures Cuts(s, bytes, split).state.phase in {Failed, OtherCommand}
    decreases |bytes|
  {
    if bytes != [] { Absorbed(Step(s, bytes[0], split).state, bytes[1..], split); }
  }

  lemma HeadFirst(a: seq<byte>, b: seq<byte>)
    requires a != []
    ensures [a[0]] + (a[1..] + b) == a + b && [a[0]] + a[1..] == a
  {
  }

  // ----- a printed command in pieces ------------------------------------------------------------------

  /** The bytes bring the parser from one phase to another and all belong to the request. */
  predicate Reads(p: Phase, bytes: seq<byte>, q: Phase, req: seq<byte>, split: bool)
  {
    Cuts(State(p, req), bytes, split) == Cutting([], State(q, req + bytes))
  }

  lemma Then(p: Phase, a: seq<byte>, q: Phase, b: seq<byte>, r: Phase, req: seq<byte>, split: bool)
    requires Reads(p, a, q, req, split) && Reads(q, b, r, req + a, split)
    ensures Reads(p, a + b, r, req, split)
  {
    hide Cuts;
    CutsAppend(State(p, req), a, b, split);
    assert req + a + b == req + (a + b);
  }

  lemma One(p: Phase, ch: byte, q: Phase, req: seq<byte>, split: bool)
    requires Step(State(p, req), ch, split) == Go(q, req + [ch])
    ensures Reads(p, [ch], q, req, split)
  {
    assert [ch][1..] == [];
    assert Cuts(State(q, req + [ch]), [], split) == Cutting([], State(q, req + [ch]));
  }

  lemma {:induction false} ReadDigits(use: Use, ds: seq<byte>, req: seq<byte>, split: bool)
    requires AllDigits(ds)
    ensures Reads(Number(use, 0), ds, Number(use, DigitsValue(ds)), req, split)
    decreases |ds|
  {
    hide Cuts;
    if ds == [] {
      Nothing(Number(use, 0), req, split);
    } else {
      var k := |ds| - 1;
      ReadDigits(use, ds[..k], req, split);
      One(Number(use, DigitsValue(ds[..k])), ds[k], Number(use, DigitsValue(ds)), req + ds[..k], split);
      Then(Number(use, 0), ds[..k], Number(use, DigitsValue(ds[..k])), [ds[k]], Number(use, DigitsValue(ds)),
           req, split);
      assert ds[..k] + [ds[k]] == ds;
    }
  }

  lemma Nothing(p: Phase, req: seq<byte>, split: bool)
    ensures Reads(p, [], p, req, split)
  {
    assert req + [] == req;
  }

  /** A number and the end of its line. */
  lemma ReadNumber(use: Use, n: nat, req: seq<byte>, split: bool)
    requires n > 0 || use.ArgLength?
    ensures Reads(Number(use, 0), Digits(n) + CRLF, EndNumberLF(use, n), req, split)
  {
    hide Cuts, Reads, Digits;
    var ds := Digits(n);
    ReadDigits(use, ds, req, split);
    DigitsRoundTrip(n);
    One(Number(use, n), CR, NumberLF(use, n), req + ds, split);
    One(NumberLF(use, n), LF, EndNumberLF(use, n), req + ds + [CR], split);
    Then(Number(use, n), [CR], NumberLF(use, n), [LF], EndNumberLF(use, n), req + ds, split);
    assert [CR] + [LF] == CRLF;
    Then(Number(use, 0), ds, Number(use, n), CRLF, EndNumberLF(use, n), req, split);
  }

  lemma {:induction false} ReadName(n: int, name: seq<byte>, done: seq<byte>, len: int, req: seq<byte>, split: bool)
    requires len == |done| + |name|
    ensures Reads(CmdBody(n, len, done), name, CmdBody(n, len, done + Lower(name)), req, split)
    decreases |name|
  {
    hide Cuts;
    if name == [] {
      Nothing(CmdBody(n, len, done), req, split);
      assert done + Lower(name) == done;
    } else {
      var next := done + [LowerByte(name[0])];
      One(CmdBody(n, len, done), name[0], CmdBody(n, len, next), req, split);
      ReadName(n, name[1..], next, len, req + [name[0]], split);
      assert next + Lower(name[1..]) == done + Lower(name);
      Then(CmdBody(n, len, done), [name[0]], CmdBody(n, len, next), name[1..], CmdBody(n, len, done + Lower(name)),
           req, split);
      assert [name[0]] + name[1..] == name;
    }
  }

  lemma {:induction false} ReadBody(c: Cmd, n: int, i: int, len: int, cnt: int, b: seq<byte>, req: seq<byte>,
                                    split: bool)
    requires cnt + |b| <= len
    ensures Reads(ArgBody(c, n, i, len, cnt), b, ArgBody(c, n, i, len, cnt + |b|), req, split)
    decreases |b|
  {
    hide Cuts;
    if b == [] {
      Nothing(ArgBody(c, n, i, len, cnt), req, split);
    } else {
      One(ArgBody(c, n, i, len, cnt), b[0], ArgBody(c, n, i, len, cnt + 1), req, split);
      ReadBody(c, n, i, len, cnt + 1, b[1..], req + [b[0]], split);
      Then(ArgBody(c, n, i, len, cnt), [b[0]], ArgBody(c, n, i, len, cnt + 1), b[1..], ArgBody(c, n, i, len, cnt + |b|),
           req, split);
      assert [b[0]] + b[1..] == b;
    }
  }

  /** An argument after its tag, up to its last line feed. */
  lemma ReadArgTail(c: Cmd, n: int, i: int, arg: seq<byte>, req: seq<byte>, split: bool)
    ensures Reads(Number(ArgLength(c, n, i), 0), Digits(|arg|) + CRLF + arg + [CR], ArgBodyLF(c, n, i), req, split)
  {
    hide Cuts, Reads, Digits;
    var h := Digits(|arg|) + CRLF;
    var start, body, full := Number(ArgLength(c, n, i), 0), ArgBody(c, n, i, |arg|, 0), ArgBody(c, n, i, |arg|, |arg|);
    ReadNumber(ArgLength(c, n, i), |arg|, req, split);
    ReadBody(c, n, i, |arg|, 0, arg, req + h, split);
    Then(start, h, body, arg, full, req, split);
    One(full, CR, ArgBodyLF(c, n, i), req + (h + arg), split);
    Then(start, h + arg, full, [CR], ArgBodyLF(c, n, i), req, split);
  }

  /** What the request is when argument i has been added to it. */
  function Begun(c: Cmd, n: int, i: int, req: seq<byte>, split: bool): seq<byte> {
    if IsSplit(c, n, i, split) then [] else req
  }

  /** One argument, in whatever piece it falls. */
  lemma ReadArg(c: Cmd, n: int, i: int, arg: seq<byte>, req: seq<byte>, split: bool)
    ensures var t := EndArg(c, n, i, Begun(c, n, i, req, split) + PrintArg(arg), split);
            Cuts(State(ArgTag(c, n, i), req), PrintArg(arg), split) == Cutting(Out(t.out), t.state)
  {
    hide Cuts, Digits, EndArg, IsSplit, PrintArg;
    var b := Begun(c, n, i, req, split);
    var tail := Digits(|arg|) + CRLF + arg + [CR];
    ArgShape(arg);
    assert b + [DOLLAR] == if IsSplit(c, n, i, split) then [DOLLAR] else req + [DOLLAR];
    ReadArgTail(c, n, i, arg, b + [DOLLAR], split);
    CutsFirst(State(ArgTag(c, n, i), req), DOLLAR, tail + [LF], split);
    CutsAppend(State(Number(ArgLength(c, n, i), 0), b + [DOLLAR]), tail, [LF], split);
    LastByte(State(ArgBodyLF(c, n, i), b + [DOLLAR] + tail), LF, split);
    JoinArg(b, tail, PrintArg(arg));
    var t := EndArg(c, n, i, b + PrintArg(arg), split);
    PiecesNone(Out(t.out));
  }

  lemma JoinArg(b: seq<byte>, tail: seq<byte>, all: seq<byte>)
    requires all == [DOLLAR] + (tail + [LF])
    ensures b + [DOLLAR] + tail + [LF] == b + all
  {
  }

  lemma ArgShape(arg: seq<byte>)
    ensures PrintArg(arg) == [DOLLAR] + (Digits(|arg|) + CRLF + arg + [CR] + [LF])
  {
    hide Digits;
    Tagged(Digits(|arg|), arg);
  }

  lemma Tagged(d: seq<byte>, arg: seq<byte>)
    ensures [DOLLAR] + d + CRLF + arg + CRLF == [DOLLAR] + (d + CRLF + arg + [CR] + [LF])
  {
    var x := d + CRLF + arg;
    assert x + [CR] + [LF] == x + CRLF;
    assert [DOLLAR] + d + CRLF + arg == [DOLLAR] + x;
    assert [DOLLAR] + x + CRLF == [DOLLAR] + (x + CRLF);
  }

  lemma LastByte(s: State, ch: byte, split: bool)
    ensures var t := Step(s, ch, split); Cuts(s, [ch], split) == Cutting(Out(t.out), t.state)
  {
    hide Step;
    CutsFirst(s, ch, [], split);
    assert [ch] + [] == [ch];
  }

  // ----- all arguments ---------------------------------------------------------------------------------------

  /** The pieces of a split command: each key for itself, or each pair. */
  function Pieces(c: Cmd, n: int, args: Argv): seq<Piece>
    requires ModeOf(c) == MultiKeyVal ==> |args| % 2 == 0
    decreases |args|
  {
    var w := if ModeOf(c) == MultiKeyVal then 2 else 1;
    if |args| < w then [] else [Piece(PrintArgs(args[..w]), |args| == w, c, n)] + Pieces(c, n, args[w..])
  }

  lemma PrintOne(args: Argv)
    requires args != []
    ensures PrintArgs(args) == PrintArg(args[0]) + PrintArgs(args[1..]) && PrintArgs(args[..1]) == PrintArg(args[0])
  {
    assert PrintArgs(args[..1]) == PrintArg(args[0]) + PrintArgs([]);
  }

  lemma {:induction false} PrintPair(args: Argv)
    requires |args| >= 2
    ensures PrintArgs(args) == PrintArg(args[0]) + (PrintArg(args[1]) + PrintArgs(args[2..]))
    ensures PrintArgs(args[..2]) == PrintArg(args[0]) + PrintArg(args[1])
  {
    PrintOne(args);
    PrintOne(args[1..]);
    assert args[1..][1..] == args[2..];
    PrintOne(args[..2]);
    PrintOne(args[..2][1..]);
    assert args[..2][1..][1..] == [] && args[..2][1..][0] == args[1];
  }

  /** Every argument begins a piece. */
  lemma {:induction false} ReadKeys(c: Cmd, n: int, i: int, args: Argv, req: seq<byte>, split: bool)
    requires args != [] && n == i + |args| && ModeOf(c) != MultiKeyVal && forall j :: i <= j ==> IsSplit(c, n, j, split)
    ensures Cuts(State(ArgTag(c, n, i), req), PrintArgs(args), split) == Cutting(Pieces(c, n, args), START)
    decreases |args|
  {
    hide Cuts, IsSplit, PrintArg;
    ReadArg(c, n, i, args[0], req, split);
    PrintOne(args);
    CutsAppend(State(ArgTag(c, n, i), req), PrintArg(args[0]), PrintArgs(args[1..]), split);
    assert [] + PrintArg(args[0]) == PrintArg(args[0]);
    if |args| > 1 {
      assert IsSplit(c, n, i + 1, split);
      ReadKeys(c, n, i + 1, args[1..], PrintArg(args[0]), split);
    } else {
      NoMore(c, n, START, split);
    }
  }

  lemma NoMore(c: Cmd, n: int, s: State, split: bool)
    ensures PrintArgs([]) == [] && Cuts(s, [], split) == Cutting([], s) && Pieces(c, n, []) == []
  {
  }

  /** Every other argument begins a piece. */
  lemma {:induction false} ReadPairs(c: Cmd, n: int, i: int, args: Argv, req: seq<byte>)
    requires args != [] && |args| % 2 == 0 && n == i + |args| && n > 3 && ModeOf(c) == MultiKeyVal && i % 2 == 1
    ensures Cuts(State(ArgTag(c, n, i), req), PrintArgs(args), true) == Cutting(Pieces(c, n, args), START)
    decreases |args|
  {
    hide Cuts, PrintArg;
    var a, b, more := PrintArg(args[0]), PrintArg(args[1]), PrintArgs(args[2..]);
    ReadArg(c, n, i, args[0], req, true);
    ReadArg(c, n, i + 1, args[1], a, true);
    PrintPair(args);
    CutsAppend(State(ArgTag(c, n, i), req), a, b + more, true);
    assert [] + a == a;
    CutsAppend(State(ArgTag(c, n, i + 1), a), b, more, true);
    if |args| > 2 {
      ReadPairs(c, n, i + 2, args[2..], a + b);
    } else {
      NoMore(c, n, START, true);
    }
  }

  /** No argument begins a piece: the command stays whole. */
  lemma {:induction false} ReadWhole(c: Cmd, n: int, i: int, args: Argv, req: seq<byte>, split: bool)
    requires args != [] && n == i + |args| && forall j :: i <= j ==> !IsSplit(c, n, j, split)
    ensures Cuts(State(ArgTag(c, n, i), req), PrintArgs(args), split)
            == Cutting([Piece(req + PrintArgs(args), true, c, n)], START)
    decreases |args|
  {
    hide Cuts, IsSplit, PrintArg;
    ReadArg(c, n, i, args[0], req, split);
    PrintOne(args);
    CutsAppend(State(ArgTag(c, n, i), req), PrintArg(args[0]), PrintArgs(args[1..]), split);
    if |args| > 1 {
      assert !IsSplit(c, n, i + 1, split);
      ReadWhole(c, n, i + 1, args[1..], req + PrintArg(args[0]), split);
      assert req + PrintArg(args[0]) + PrintArgs(args[1..]) == req + PrintArgs(args);
    } else {
      NoMore(c, n, START, split);
      assert req + PrintArgs(args) == req + PrintArg(args[0]) by { assert PrintArg(args[0]) + [] == PrintArg(args[0]); }
    }
  }

  // ----- whole commands -----------------------------------------------------------------------------------------

  /** The command is taken apart: splitting is on, or it is a subscription, and it has more
      than one key. */
  predicate Splits(c: Cmd, n: int, split: bool) { IsSplit(c, n, 1, split) }

  /** The first line and the name, but for its line feed. */
  lemma ReadUpToName(name: seq<byte>, c: Cmd, n: nat, split: bool)
    requires Lower(name) == Name(c) && n >= 1
    ensures var h := [STAR] + (Digits(n) + CRLF + [DOLLAR] + (Digits(|name|) + CRLF) + name + [CR]);
            && Cuts(START, h, split) == Cutting([], State(CmdBodyLF(n, Name(c)), h))
            && h + [LF] == Header(STAR, n) + PrintArg(name)
  {
    hide Cuts, Digits, Name, Find, GoodCount;
    FindName(c);
    var h0, h1 := Digits(n) + CRLF, Digits(|name|) + CRLF;
    ReadNumber(ArgCount, n, [STAR], split);
    ReadNumber(CmdLength(n), |name|, [STAR] + h0 + [DOLLAR], split);
    ReadName(n, name, [], |name|, [STAR] + h0 + [DOLLAR] + h1, split);
    assert [] + Lower(name) == Lower(name);
    One(CmdTag(n), DOLLAR, Number(CmdLength(n), 0), [STAR] + h0, split);
    One(CmdBody(n, |name|, Name(c)), CR, CmdBodyLF(n, Name(c)), [STAR] + h0 + [DOLLAR] + h1 + name, split);
    Then(Number(ArgCount, 0), h0, CmdTag(n), [DOLLAR], Number(CmdLength(n), 0), [STAR], split);
    JoinHead(n, name, c, h0, h1, split);
  }

  lemma JoinHead(n: nat, name: seq<byte>, c: Cmd, h0: seq<byte>, h1: seq<byte>, split: bool)
    requires h0 == Digits(n) + CRLF && h1 == Digits(|name|) + CRLF
    requires Reads(Number(ArgCount, 0), h0 + [DOLLAR], Number(CmdLength(n), 0), [STAR], split)
    requires Reads(Number(CmdLength(n), 0), h1, CmdBody(n, |name|, []), [STAR] + h0 + [DOLLAR], split)
    requires Reads(CmdBody(n, |name|, []), name, CmdBody(n, |name|, Name(c)), [STAR] + h0 + [DOLLAR] + h1, split)
    requires Reads(CmdBody(n, |name|, Name(c)), [CR], CmdBodyLF(n, Name(c)), [STAR] + h0 + [DOLLAR] + h1 + name, split)
    ensures var h := [STAR] + (h0 + [DOLLAR] + h1 + name + [CR]);
            && Cuts(START, h, split) == Cutting([], State(CmdBodyLF(n, Name(c)), h))
            && h + [LF] == Header(STAR, n) + PrintArg(name)
  {
    hide Cuts, Digits, Name, Reads;
    var r := [STAR];
    assert [STAR] + h0 + [DOLLAR] == r + (h0 + [DOLLAR]);
    Then(Number(ArgCount, 0), h0 + [DOLLAR], Number(CmdLength(n), 0), h1, CmdBody(n, |name|, []), r, split);
    assert [STAR] + h0 + [DOLLAR] + h1 == r + (h0 + [DOLLAR] + h1);
    Then(Number(ArgCount, 0), h0 + [DOLLAR] + h1, CmdBody(n, |name|, []), name, CmdBody(n, |name|, Name(c)), r, split);
    assert [STAR] + h0 + [DOLLAR] + h1 + name == r + (h0 + [DOLLAR] + h1 + name);
    var all := h0 + [DOLLAR] + h1 + name + [CR];
    Then(Number(ArgCount, 0), h0 + [DOLLAR] + h1 + name, CmdBody(n, |name|, Name(c)), [CR],
         CmdBodyLF(n, Name(c)), r, split);
    FirstStar(all, CmdBodyLF(n, Name(c)), split);
    HeadShape(n, name, h0, h1);
    assert [STAR] + (all + [LF]) == [STAR] + all + [LF];
  }

  /** The table of commands. A command of many keys is taken with at least one key, MSET and MSETNX
      with pairs, PUNSUBSCRIBE and UNSUBSCRIBE also alone; with another number of arguments it is
      invalid. */
  lemma AfterName(name: seq<byte>, c: Cmd, n: nat, split: bool)
    requires Lower(name) == Name(c) && n >= 1
    ensures Lower(name) == Ascii(Spelling(c))
    ensures var h := Header(STAR, n) + PrintArg(name);
            var r := Cuts(START, h, split);
            var taken := && n <= 100000000
                         && (c in {Del, Exists, Touch, Unlink, Mget, Psubscribe, Subscribe} ==> n >= 2)
                         && (c in {Mset, Msetnx} ==> n >= 3 && n % 2 == 1);
            && (!taken ==> r.pieces == [] && r.state.phase == OtherCommand)
            && (taken ==> r == if n == 1 then Cutting([Piece(h, true, c, n)], START)
                               else Cutting([], State(ArgTag(c, n, 1), h)))
  {
    hide Cuts, Digits, Name, Find, Spelling;
    NameIs(c);
    ReadUpToName(name, c, n, split);
    FindName(c);
    var h := [STAR] + (Digits(n) + CRLF + [DOLLAR] + (Digits(|name|) + CRLF) + name + [CR]);
    var s := State(CmdBodyLF(n, Name(c)), h);
    CutsAppend(START, h, [LF], split);
    assert [LF] + [] == [LF];
    CutsFirst(s, LF, [], split);
    NothingCut(Step(s, LF, split).state, split);
    PiecesNone(Out(Step(s, LF, split).out));
  }

  lemma NothingCut(s: State, split: bool)
    ensures Cuts(s, [], split) == Cutting([], s) && forall ps: seq<Piece> :: ps + [] == ps
  {
  }

  /** The table's names, in letters. */
  function Spelling(c: Cmd): string
  {
    match c
    case Del => "del"
    case Exists => "exists"
    case Touch => "touch"
    case Unlink => "unlink"
    case Mget => "mget"
    case Mset => "mset"
    case Msetnx => "msetnx"
    case Psubscribe => "psubscribe"
    case Punsubscribe => "punsubscribe"
    case Subscribe => "subscribe"
    case Unsubscribe => "unsubscribe"
  }

  lemma NameIs(c: Cmd)
    ensures Name(c) == Ascii(Spelling(c))
  {
    if c in {Psubscribe, Punsubscribe, Subscribe, Unsubscribe} {
      ChannelName(c);
    } else {
      KeyName(c);
    }
  }

  lemma KeyName(c: Cmd)
    requires c !in {Psubscribe, Punsubscribe, Subscribe, Unsubscribe}
    ensures Name(c) == Ascii(Spelling(c))
  {
  }

  lemma ChannelName(c: Cmd)
    requires c in {Psubscribe, Punsubscribe, Subscribe, Unsubscribe}
    ensures Name(c) == Ascii(Spelling(c))
  {
  }

  /** When a command is split: the commands that subscribe always are, the others only if the server
      is told to. One key, or one pair, is left whole. */
  lemma WhenSplit(c: Cmd, n: int, split: bool)
    ensures Splits(c, n, split) <==>
              if c in {Psubscribe, Punsubscribe, Subscribe, Unsubscribe} then n > 2
              else split && n > (if c in {Mset, Msetnx} then 3 else 2)
  {
  }

  lemma ReadHead(name: seq<byte>, c: Cmd, n: nat, split: bool)
    requires Lower(name) == Name(c) && n > 1 && GoodCount(c, n)
    ensures var h := Header(STAR, n) + PrintArg(name);
            Cuts(START, h, split) == Cutting([], State(ArgTag(c, n, 1), h))
  {
    hide Cuts, Digits, Name;
    AfterName(name, c, n, split);
  }

  lemma FirstStar(all: seq<byte>, p: Phase, split: bool)
    requires Reads(Number(ArgCount, 0), all, p, [STAR], split)
    ensures Cuts(START, [STAR] + all, split) == Cutting([], State(p, [STAR] + all))
  {
    hide Cuts;
    CutsFirst(START, STAR, all, split);
  }

  lemma HeadShape(n: nat, name: seq<byte>, h0: seq<byte>, h1: seq<byte>)
    requires h0 == Digits(n) + CRLF && h1 == Digits(|name|) + CRLF
    ensures [STAR] + (h0 + [DOLLAR] + h1 + name + [CR] + [LF]) == Header(STAR, n) + PrintArg(name)
  {
    hide Digits;
    var d0, d1 := Digits(n), Digits(|name|);
    HeadTail(h0, h1, name);
    Tag(d1, h1, name);
    Front(d0, h0, [DOLLAR] + h1 + name + CRLF);
  }

  lemma HeadTail(h0: seq<byte>, h1: seq<byte>, name: seq<byte>)
    ensures h0 + [DOLLAR] + h1 + name + [CR] + [LF] == h0 + ([DOLLAR] + h1 + name + CRLF)
  {
  }

  lemma Tag(d: seq<byte>, h: seq<byte>, name: seq<byte>)
    requires h == d + CRLF
    ensures [DOLLAR] + d + CRLF + name + CRLF == [DOLLAR] + h + name + CRLF
  {
    assert [DOLLAR] + d + CRLF == [DOLLAR] + h;
  }

  lemma Front(d: seq<byte>, h: seq<byte>, more: seq<byte>)
    requires h == d + CRLF
    ensures [STAR] + (h + more) == [STAR] + d + CRLF + more
  {
    assert [STAR] + d + CRLF == [STAR] + h;
  }

  /** A command of many keys, printed, comes out as one piece for each key or pair, in
      order; or whole, if it is not to be split. */
  lemma CommandPieces(name: seq<byte>, c: Cmd, args: Argv, split: bool)
    requires Lower(name) == Name(c) && args != [] && GoodCount(c, |args| + 1)
    ensures var n := |args| + 1;
            Cuts(START, PrintCommand([name] + args), split) ==
              Cutting(if Splits(c, n, split) then Pieces(c, n, args)
                      else [Piece(PrintCommand([name] + args), true, c, n)], START)
  {
    hide Cuts, PrintArg, Name;
    var n := |args| + 1;
    var h := Header(STAR, n) + PrintArg(name);
    ReadHead(name, c, n, split);
    PrintNamed(name, args);
    CutsAppend(START, h, PrintArgs(args), split);
    if Splits(c, n, split) {
      if ModeOf(c) == MultiKeyVal {
        ReadPairs(c, n, 1, args, h);
      } else {
        ReadKeys(c, n, 1, args, h, split);
      }
    } else {
      ReadWhole(c, n, 1, args, h, split);
    }
  }

  lemma PrintNamed(name: seq<byte>, args: Argv)
    ensures PrintCommand([name] + args) == Header(STAR, |args| + 1) + PrintArg(name) + PrintArgs(args)
  {
    hide PrintArg, Header, PrintArgs;
    PrintOne([name] + args);
    assert ([name] + args)[1..] == args && ([name] + args)[0] == name;
    assert Header(STAR, |args| + 1) + (PrintArg(name) + PrintArgs(args))
           == Header(STAR, |args| + 1) + PrintArg(name) + PrintArgs(args);
  }

  /** The i-th piece is the i-th key, or the i-th key and its value. */
  lemma {:induction false} PieceAt(c: Cmd, n: int, args: Argv, i: nat)
    requires ModeOf(c) == MultiKeyVal ==> |args| % 2 == 0
    requires i < |Pieces(c, n, args)|
    ensures var w := if ModeOf(c) == MultiKeyVal then 2 else 1;
            && |Pieces(c, n, args)| * w == |args| && (i + 1) * w <= |args|
            && Pieces(c, n, args)[i] == Piece(PrintArgs(args[i * w..(i + 1) * w]), i + 1 == |Pieces(c, n, args)|, c, n)
    decreases |args|
  {
    hide PrintArgs;
    var w := if ModeOf(c) == MultiKeyVal then 2 else 1;
    PieceCount(c, n, args[w..]);
    if i > 0 {
      PieceAt(c, n, args[w..], i - 1);
      Further(args, w, (i - 1) * w, i * w);
      assert (i - 1) * w + w == i * w && i * w + w == (i + 1) * w;
    }
  }

  lemma Further(args: Argv, w: nat, a: nat, b: nat)
    requires a <= b && b + w <= |args|
    ensures args[w..][a..b] == args[a + w..b + w]
  {
  }

  lemma {:induction false} PieceCount(c: Cmd, n: int, args: Argv)
    requires ModeOf(c) == MultiKeyVal ==> |args| % 2 == 0
    ensures |Pieces(c, n, args)| == if ModeOf(c) == MultiKeyVal then |args| / 2 else |args|
    decreases |args|
  {
    hide PrintArgs;
    var w := if ModeOf(c) == MultiKeyVal then 2 else 1;
    if |args| >= w { PieceCount(c, n, args[w..]); }
  }

  /** With its fixed head, a piece is the whole command for its own key or pair. */
  lemma PieceIsCommand(c: Cmd, n: int, args: Argv, i: nat)
    requires ModeOf(c) == MultiKeyVal ==> |args| % 2 == 0
    requires i < |Pieces(c, n, args)|
    ensures var w := if ModeOf(c) == MultiKeyVal then 2 else 1;
            && i * w < (i + 1) * w <= |args|
            && FixedHead(c) + Pieces(c, n, args)[i].req == PrintCommand([Name(c)] + args[i * w..(i + 1) * w])
  {
    hide PrintArg, Pieces, FixedHead, Name;
    PieceAt(c, n, args, i);
    FixedHeadIsHeader(c);
    var w := if ModeOf(c) == MultiKeyVal then 2 else 1;
    PrintNamed(Name(c), args[i * w..(i + 1) * w]);
  }
}
