/** RESP replies: the values, how a server prints them, and the reply parser as an
    automaton that takes one byte at a time. */
module ReplyFormat {
  import opened Bytes

  const MAX_ARRAY_DEPTH: nat := 8

  // ----- replies and their printed form -----------------------------------------------------

  datatype Reply =
    | Status(text: seq<byte>)
    | Error(text: seq<byte>)
    | Integer(value: int)
    | String(body: seq<byte>)
    | Nil
    | Array(elements: seq<Reply>)
    | NilArray

  /** Lines hold no carriage return; everything else may hold any bytes. */
  predicate Printable(v: Reply)
  {
    match v
    case Status(t) => CR !in t
    case Error(t) => CR !in t
    case Array(es) => forall i :: 0 <= i < |es| ==> Printable(es[i])
    case _ => true
  }

  function Encode(v: Reply): seq<byte>
  {
    match v
    case Status(t) => [PLUS] + (t + CRLF)
    case Error(t) => [MINUS] + (t + CRLF)
    case Integer(n) => [COLON] + (Decimal(n) + CRLF)
    case String(b) => [DOLLAR] + (Digits(|b|) + CRLF) + (b + CRLF)
    case Nil => [DOLLAR] + (Decimal(-1) + CRLF)
    case Array(es) => [STAR] + (Digits(|es|) + CRLF) + EncodeAll(es)
    case NilArray => [STAR] + (Decimal(-1) + CRLF)
  }

  function EncodeAll(es: seq<Reply>): seq<byte>
  {
    if es == [] then [] else Encode(es[0]) + EncodeAll(es[1..])
  }

  /** The bytes of each kind of reply, as the protocol has them. */
  lemma WireBytes(text: seq<byte>, n: int, es: seq<Reply>)
    ensures Encode(Status(text)) == Ascii("+") + text + Ascii("\r\n")
    ensures Encode(Error(text)) == Ascii("-") + text + Ascii("\r\n")
    ensures Encode(Integer(n)) == Ascii(":") + (if n < 0 then Ascii("-") + Digits(-n) else Digits(n)) + Ascii("\r\n")
    ensures Encode(String(text)) == Ascii("$") + Digits(|text|) + Ascii("\r\n") + text + Ascii("\r\n")
    ensures Encode(Nil) == Ascii("$-1\r\n") && Encode(NilArray) == Ascii("*-1\r\n")
    ensures Encode(Array(es)) == Ascii("*") + Digits(|es|) + Ascii("\r\n") + EncodeAll(es)
  {
    hide EncodeAll;
    assert Ascii("\r\n") == CRLF && Digits(1) == Ascii("1") && Decimal(-1) == [MINUS] + Digits(1);
    assert Ascii("+") == [PLUS] && Ascii("-") == [MINUS] && Ascii(":") == [COLON] && Ascii("$") == [DOLLAR];
    assert Ascii("*") == [STAR];
  }

  // ----- the parser's states --------------------------------------------------------------------

  datatype Kind = NoReply | StatusReply | ErrorReply | IntegerReply | StringReply | ArrayReply

  /** An array in progress: its length and how many elements are complete. */
  datatype Level = Level(num: int, cnt: int)

  /** What a number is read for. */
  datatype Use = Head(kind: Kind) | SubString(up: seq<Level>) | SubArray(up: seq<Level>)

  datatype Parse =
    | Idle
    | Line(kind: Kind)
    | Number(use: Use, n: int, neg: bool)
    | HeadLF(kind: Kind, n: int)
    | Body(len: int, cnt: int)
    | BodyLF
    | Element(up: seq<Level>)
    | InLine(up: seq<Level>)
    | SubStringLF(up: seq<Level>, n: int)
    | SubBody(up: seq<Level>, len: int, cnt: int)
    | SubArrayLF(up: seq<Level>, n: int)
    | ElementLF(up: seq<Level>)
    | Finished(kind: Kind, n: int)
    | Failed

  /** An element of the innermost array is complete; so may be the arrays around it. */
  function Close(up: seq<Level>): Parse
  {
    if up == [] then Finished(ArrayReply, 0) else
    var top, rest := up[|up| - 1], up[..|up| - 1];
    if top.cnt + 1 == top.num then Close(rest) else Element(rest + [top.(cnt := top.cnt + 1)])
  }

  function EndNumber(use: Use, n: int, neg: bool): Parse
  {
    match use
    case Head(k) => HeadLF(k, if neg then -n else n)
    case SubString(up) => if neg then ElementLF(up) else SubStringLF(up, n)
    case SubArray(up) => if n > 0 then SubArrayLF(up, n) else ElementLF(up)
  }

  function EndHead(kind: Kind, n: int): Parse
  {
    match kind
    case IntegerReply => Finished(kind, n)
    case StringReply => if n < 0 then Finished(kind, 0) else Body(n, 0)
    case ArrayReply => if n <= 0 then Finished(kind, 0) else Element([Level(n, 0)])
    case NoReply => Failed
    case _ => Finished(kind, 0)
  }

  function Step(s: Parse, ch: byte): Parse
  {
    match s
    case Idle =>
      if ch == PLUS then Line(StatusReply)
      else if ch == MINUS then Line(ErrorReply)
      else if ch == COLON then Number(Head(IntegerReply), 0, false)
      else if ch == DOLLAR then Number(Head(StringReply), 0, false)
      else if ch == STAR then Number(Head(ArrayReply), 0, false)
      else Failed
    case Line(k) => if ch == CR then HeadLF(k, 0) else s
    case Number(use, n, neg) =>
      if IsDigit(ch) then Number(use, n * 10 + (ch - ZERO), neg)
      else if ch == CR then EndNumber(use, n, neg)
      else if ch == MINUS && !neg && !use.SubArray? then Number(use, n, true)
      else Failed
    case HeadLF(k, n) => if ch == LF then EndHead(k, n) else Failed
    case Body(len, cnt) => if cnt < len then Body(len, cnt + 1) else if ch == CR then BodyLF else Failed
    case BodyLF => if ch == LF then Finished(StringReply, 0) else Failed
    case Element(up) =>
      if ch == PLUS || ch == MINUS || ch == COLON then InLine(up)
      else if ch == DOLLAR then Number(SubString(up), 0, false)
      else if ch == STAR then Number(SubArray(up), 0, false)
      else Failed
    case InLine(up) => if ch == CR then ElementLF(up) else s
    case SubStringLF(up, n) => if ch == LF then SubBody(up, n, 0) else Failed
    case SubBody(up, len, cnt) => if cnt < len then SubBody(up, len, cnt + 1) else if ch == CR then ElementLF(up)
        else Failed
    case SubArrayLF(up, n) =>
      if ch == LF && |up| < MAX_ARRAY_DEPTH then Element(up + [Level(n, 0)]) else Failed
    case ElementLF(up) => if ch == LF then Close(up) else Failed
    case Finished(_, _) => Failed
    case Failed => Failed
  }

  predicate Over(s: Parse) { s.Finished? || s.Failed? }

  /** Where a run ends: in `state`, after `used` bytes; it stops when the reply is over. */
  datatype Outcome = Outcome(state: Parse, used: nat)

  function Run(s: Parse, bytes: seq<byte>): (r: Outcome)
    ensures r.used <= |bytes| && (!Over(r.state) ==> r.used == |bytes|)
    ensures !Over(s) && bytes != [] ==> r.used > 0
    decreases |bytes|
  {
    if bytes == [] || Over(s) then Outcome(s, 0) else
    var r := Run(Step(s, bytes[0]), bytes[1..]);
    Outcome(r.state, r.used + 1)
  }

  function Later(r: Outcome, n: nat): Outcome { r.(used := r.used + n) }

  /** Bytes may come in pieces: a run over two pieces is the run over both. */
  lemma {:induction false} RunSplit(s: Parse, a: seq<byte>, b: seq<byte>)
    ensures var r := Run(s, a);
            Run(s, a + b) == if Over(r.state) then r else Later(Run(r.state, b), |a|)
    decreases |a|
  {
    if a == [] {
      assert a + b == b;
    } else if !Over(s) {
      assert (a + b)[1..] == a[1..] + b;
      RunSplit(Step(s, a[0]), a[1..], b);
    }
  }

  /** From s, the parser takes exactly these bytes and is then in s'. */
  predicate Reads(s: Parse, bytes: seq<byte>, s': Parse) { Run(s, bytes) == Outcome(s', |bytes|) }

  lemma Then(s: Parse, a: seq<byte>, m: Parse, b: seq<byte>, s': Parse)
    requires Reads(s, a, m) && Reads(m, b, s') && !Over(m)
    ensures Reads(s, a + b, s')
  {
    RunSplit(s, a, b);
  }

  lemma One(s: Parse, ch: byte)
    requires !Over(s)
    ensures Reads(s, [ch], Step(s, ch))
  {
    assert Run(Step(s, ch), []) == Outcome(Step(s, ch), 0);
    assert [ch][1..] == [];
  }

  // ----- the pieces of a printed reply ------------------------------------------------------------------

  lemma {:induction false} ReadDigits(use: Use, neg: bool, ds: seq<byte>)
    requires AllDigits(ds)
    ensures Reads(Number(use, 0, neg), ds, Number(use, DigitsValue(ds), neg))
    decreases |ds|
  {
    if ds != [] {
      var k := |ds| - 1;
      ReadDigits(use, neg, ds[..k]);
      One(Number(use, DigitsValue(ds[..k]), neg), ds[k]);
      Then(Number(use, 0, neg), ds[..k], Number(use, DigitsValue(ds[..k]), neg), [ds[k]],
           Number(use, DigitsValue(ds), neg));
      assert ds[..k] + [ds[k]] == ds;
    }
  }

  /** A decimal number and the return after it. */
  lemma ReadNumber(use: Use, n: int)
    requires n >= 0 || !use.SubArray?
    ensures Reads(Number(use, 0, false), Decimal(n) + [CR], EndNumber(use, if n < 0 then -n else n, n < 0))
  {
    var m: nat := if n < 0 then -n else n;
    var s := Number(use, 0, false);
    ReadDigits(use, n < 0, Digits(m));
    DigitsRoundTrip(m);
    if n < 0 {
      One(s, MINUS);
      Then(s, [MINUS], Number(use, 0, true), Digits(m), Number(use, m, true));
    }
    One(Number(use, m, n < 0), CR);
    Then(s, Decimal(n), Number(use, m, n < 0), [CR], EndNumber(use, m, n < 0));
  }

  lemma {:induction false} ReadText(s: Parse, text: seq<byte>)
    requires (s.Line? || s.InLine?) && CR !in text
    ensures Reads(s, text, s)
    decreases |text|
  {
    if text != [] {
      One(s, text[0]);
      ReadText(s, text[1..]);
      Then(s, [text[0]], s, text[1..], s);
      assert [text[0]] + text[1..] == text;
    }
  }

  lemma {:induction false} ReadBody(s: Parse, b: seq<byte>)
    requires (s.Body? || s.SubBody?) && s.cnt + |b| <= s.len
    ensures Reads(s, b, s.(cnt := s.cnt + |b|))
    decreases |b|
  {
    if b != [] {
      One(s, b[0]);
      ReadBody(Step(s, b[0]), b[1..]);
      Then(s, [b[0]], Step(s, b[0]), b[1..], s.(cnt := s.cnt + |b|));
      assert [b[0]] + b[1..] == b;
    }
  }

  /** Two bytes that end a line. */
  lemma ReadCRLF(s: Parse)
    requires !Over(s) && !Over(Step(s, CR))
    ensures Reads(s, CRLF, Step(Step(s, CR), LF))
  {
    One(s, CR);
    One(Step(s, CR), LF);
    Then(s, [CR], Step(s, CR), [LF], Step(Step(s, CR), LF));
    assert [CR] + [LF] == CRLF;
  }

  lemma ReadNumberLine(use: Use, n: int)
    requires n >= 0 || !use.SubArray?
    ensures var m := EndNumber(use, if n < 0 then -n else n, n < 0);
            Reads(Number(use, 0, false), Decimal(n) + CRLF, Step(m, LF))
  {
    var m := EndNumber(use, if n < 0 then -n else n, n < 0);
    ReadNumber(use, n);
    One(m, LF);
    Then(Number(use, 0, false), Decimal(n) + [CR], m, [LF], Step(m, LF));
    assert Decimal(n) + [CR] + [LF] == Decimal(n) + CRLF;
  }

  /** The first byte of a reply or an element, and a number line after it. */
  lemma ReadTagged(s: Parse, tag: byte, use: Use, n: int)
    requires !Over(s) && Step(s, tag) == Number(use, 0, false) && (n >= 0 || !use.SubArray?)
    ensures var m := EndNumber(use, if n < 0 then -n else n, n < 0); Reads(s, [tag] + (Decimal(n) + CRLF), Step(m, LF))
  {
    var m := EndNumber(use, if n < 0 then -n else n, n < 0);
    One(s, tag);
    ReadNumberLine(use, n);
    Then(s, [tag], Number(use, 0, false), Decimal(n) + CRLF, Step(m, LF));
  }

  lemma ReadTaggedText(s: Parse, tag: byte, line: Parse, text: seq<byte>)
    requires !Over(s) && Step(s, tag) == line && (line.Line? || line.InLine?) && CR !in text
    ensures Reads(s, [tag] + (text + CRLF), Step(Step(line, CR), LF))
  {
    One(s, tag);
    ReadText(line, text);
    ReadCRLF(line);
    Then(line, text, line, CRLF, Step(Step(line, CR), LF));
    Then(s, [tag], line, text + CRLF, Step(Step(line, CR), LF));
  }

  lemma ReadBodyLine(s: Parse, b: seq<byte>)
    requires (s.Body? || s.SubBody?) && s.cnt == 0 && s.len == |b|
    ensures var full := s.(cnt := |b|); Reads(s, b + CRLF, Step(Step(full, CR), LF))
  {
    var full := s.(cnt := |b|);
    ReadBody(s, b);
    ReadCRLF(full);
    Then(s, b, full, CRLF, Step(Step(full, CR), LF));
  }

  lemma NoReturnInDecimal(n: int)
    ensures CR !in Decimal(n)
  {
  }

  // ----- elements and arrays ---------------------------------------------------------------------------------

  /** Arrays that are not empty nest at most d deep, and no array holds a null array. */
  predicate Fits(v: Reply, d: int)
  {
    v.Array? && v.elements != [] ==>
      d > 0 && forall i :: 0 <= i < |v.elements| ==> v.elements[i] != NilArray && Fits(v.elements[i], d - 1)
  }

  /** What the parser makes of bytes that must be an element: it completes the element, or
      fails on it. */
  predicate ElementResult(up: seq<Level>, bytes: seq<byte>, ok: bool, after: Parse)
  {
    if ok then Reads(Element(up), bytes, after) else Run(Element(up), bytes).state == Failed
  }

  lemma {:induction false} ReadElement(up: seq<Level>, e: Reply)
    requires up != [] && |up| <= MAX_ARRAY_DEPTH && Printable(e)
    ensures ElementResult(up, Encode(e), e != NilArray && Fits(e, MAX_ARRAY_DEPTH - |up|), Close(up))
    decreases e, 1
  {
    hide Run, Reads, Digits;
    match e
    case Status(t) => ReadTaggedText(Element(up), PLUS, InLine(up), t);
    case Error(t) => ReadTaggedText(Element(up), MINUS, InLine(up), t);
    case Integer(n) =>
      NoReturnInDecimal(n);
      ReadTaggedText(Element(up), COLON, InLine(up), Decimal(n));
    case String(b) =>
      ReadTagged(Element(up), DOLLAR, SubString(up), |b|);
      ReadBodyLine(SubBody(up, |b|, 0), b);
      Then(Element(up), [DOLLAR] + (Decimal(|b|) + CRLF), SubBody(up, |b|, 0), b + CRLF, Close(up));
    case Nil => ReadTagged(Element(up), DOLLAR, SubString(up), -1);
    case NilArray => ReadNilArray(up);
    case Array(es) =>
      ReadTagged(Element(up), STAR, SubArray(up), |es|);
      if es == [] {
        assert Encode(e) == [STAR] + (Decimal(0) + CRLF);
      } else {
        ReadSubArray(up, e);
      }
  }

  lemma NilArrayBytes()
    ensures Encode(NilArray) == [STAR] + ([MINUS] + (Digits(1) + CRLF))
  {
    hide Digits;
    assert Decimal(-1) + CRLF == [MINUS] + (Digits(1) + CRLF);
  }

  lemma ReadNilArray(up: seq<Level>)
    ensures Run(Element(up), Encode(NilArray)).state == Failed
  {
    One(Element(up), STAR);
    var rest := Digits(1) + CRLF;
    One(Number(SubArray(up), 0, false), MINUS);
    NilArrayBytes();
    hide Digits, Run;
    RunSplit(Element(up), [STAR], [MINUS] + rest);
    RunSplit(Number(SubArray(up), 0, false), [MINUS], rest);
  }

  lemma {:induction false} ReadSubArray(up: seq<Level>, e: Reply)
    requires up != [] && |up| <= MAX_ARRAY_DEPTH && e.Array? && e.elements != [] && Printable(e)
    ensures ElementResult(up, Encode(e), Fits(e, MAX_ARRAY_DEPTH - |up|), Close(up))
    decreases e, 0
  {
    var es := e.elements;
    var head := [STAR] + (Decimal(|es|) + CRLF);
    ReadTagged(Element(up), STAR, SubArray(up), |es|);
    RunSplit(Element(up), head, EncodeAll(es));
    if |up| < MAX_ARRAY_DEPTH {
      ReadElements(up, es, 0);
      assert es[0..] == es;
    }
  }

  /** The elements from the i-th on of the innermost array. */
  lemma {:induction false} ReadElements(up: seq<Level>, es: seq<Reply>, i: nat)
    requires |up| < MAX_ARRAY_DEPTH && i < |es| && forall k :: 0 <= k < |es| ==> Printable(es[k])
    ensures ElementResult(up + [Level(|es|, i)], EncodeAll(es[i..]), FitFrom(es, i, MAX_ARRAY_DEPTH - |up| - 1),
                          Close(up))
    decreases es, |es| - i
  {
    hide Encode, EncodeAll, Close, Fits, FitFrom, Printable;
    var here := up + [Level(|es|, i)];
    ReadElement(here, es[i]);
    FirstOf(es, i);
    FitFirst(es, i, MAX_ARRAY_DEPTH - |up| - 1);
    CloseHere(up, |es|, i);
    RunSplit(Element(here), Encode(es[i]), EncodeAll(es[i + 1..]));
    if i + 1 < |es| { ReadElements(up, es, i + 1); }
  }

  lemma FirstOf(es: seq<Reply>, i: nat)
    requires i < |es|
    ensures EncodeAll(es[i..]) == Encode(es[i]) + EncodeAll(es[i + 1..])
    ensures (i + 1 == |es| ==> EncodeAll(es[i + 1..]) == [])
  {
    assert es[i..][1..] == es[i + 1..];
  }

  lemma FitFirst(es: seq<Reply>, i: nat, d: int)
    requires i < |es|
    ensures FitFrom(es, i, d) <==> es[i] != NilArray && Fits(es[i], d) && FitFrom(es, i + 1, d)
    ensures i + 1 == |es| ==> FitFrom(es, i + 1, d)
  {
    hide Fits;
  }

  /** An element of the innermost array is complete. */
  lemma CloseHere(up: seq<Level>, n: nat, i: nat)
    ensures Close(up + [Level(n, i)]) == if i + 1 == n then Close(up) else Element(up + [Level(n, i + 1)])
  {
    var here := up + [Level(n, i)];
    assert here[..|here| - 1] == up;
  }

  predicate FitFrom(es: seq<Reply>, i: nat, d: int)
  {
    forall k :: i <= k < |es| ==> es[k] != NilArray && Fits(es[k], d)
  }

  // ----- whole replies --------------------------------------------------------------------------------------------

  function KindOf(v: Reply): Kind
  {
    match v
    case Status(_) => StatusReply
    case Error(_) => ErrorReply
    case Integer(_) => IntegerReply
    case String(_) => StringReply
    case Nil => StringReply
    case Array(_) => ArrayReply
    case NilArray => ArrayReply
  }

  function NumberOf(v: Reply): int { if v.Integer? then v.value else 0 }

  /** The parser takes a printed reply to its last byte iff its arrays nest at most
      MAX_ARRAY_DEPTH deep and hold no null array; else it fails within it. */
  lemma {:induction false} ReadReply(v: Reply)
    requires Printable(v)
    ensures if Fits(v, MAX_ARRAY_DEPTH) then Reads(Idle, Encode(v), Finished(KindOf(v), NumberOf(v)))
            else Run(Idle, Encode(v)).state == Failed
  {
    hide Run, Reads, Digits;
    match v
    case Status(t) => ReadTaggedText(Idle, PLUS, Line(StatusReply), t);
    case Error(t) => ReadTaggedText(Idle, MINUS, Line(ErrorReply), t);
    case Integer(n) => ReadTagged(Idle, COLON, Head(IntegerReply), n);
    case String(b) => ReadString(b);
    case Nil => ReadTagged(Idle, DOLLAR, Head(StringReply), -1);
    case NilArray => ReadTagged(Idle, STAR, Head(ArrayReply), -1);
    case Array(es) => ReadArray(es);
  }

  lemma ReadString(b: seq<byte>)
    ensures Reads(Idle, Encode(String(b)), Finished(StringReply, 0))
  {
    hide Run, Reads, Digits;
    ReadTagged(Idle, DOLLAR, Head(StringReply), |b|);
    ReadBodyLine(Body(|b|, 0), b);
    Then(Idle, [DOLLAR] + (Decimal(|b|) + CRLF), Body(|b|, 0), b + CRLF, Finished(StringReply, 0));
  }

  lemma ReadArray(es: seq<Reply>)
    requires Printable(Array(es))
    ensures if Fits(Array(es), MAX_ARRAY_DEPTH) then Reads(Idle, Encode(Array(es)), Finished(ArrayReply, 0))
            else Run(Idle, Encode(Array(es))).state == Failed
  {
    hide Run, Digits;
    ReadTagged(Idle, STAR, Head(ArrayReply), |es|);
    var head := [STAR] + (Decimal(|es|) + CRLF);
    RunSplit(Idle, head, EncodeAll(es));
    if es == [] {
      assert Encode(Array(es)) == head;
    } else {
      ReadElements([], es, 0);
      assert es[0..] == es && [] + [Level(|es|, 0)] == [Level(|es|, 0)];
    }
  }

  /** With any bytes behind the reply, the parser stops at the reply's end. */
  lemma ReadExactly(v: Reply, rest: seq<byte>)
    requires Printable(v)
    ensures var r := Run(Idle, Encode(v) + rest);
            if Fits(v, MAX_ARRAY_DEPTH) then r == Outcome(Finished(KindOf(v), NumberOf(v)), |Encode(v)|)
            else r.state == Failed && r.used <= |Encode(v)|
  {
    ReadReply(v);
    RunSplit(Idle, Encode(v), rest);
  }

  /** Before its last byte the reply is not over: no prefix of a reply is a reply. */
  lemma NotOverBefore(v: Reply, n: nat)
    requires Printable(v) && Fits(v, MAX_ARRAY_DEPTH) && n < |Encode(v)|
    ensures !Over(Run(Idle, Encode(v)[..n]).state)
  {
    ReadReply(v);
    RunSplit(Idle, Encode(v)[..n], Encode(v)[n..]);
    assert Encode(v) == Encode(v)[..n] + Encode(v)[n..];
  }

  // ----- what every state keeps ---------------------------------------------------------------------------------

  /** No level is full, and there is room for the levels there are. */
  predicate Levels(up: seq<Level>)
  {
    0 < |up| <= MAX_ARRAY_DEPTH && forall i :: 0 <= i < |up| ==> 0 <= up[i].cnt < up[i].num
  }

  predicate Sound(s: Parse)
  {
    match s
    case Number(use, n, neg) => n >= 0 && (use.Head? || Levels(use.up)) && (use.SubArray? ==> !neg)
    case Body(len, cnt) => 0 <= cnt <= len
    case Element(up) => Levels(up)
    case InLine(up) => Levels(up)
    case SubStringLF(up, n) => Levels(up) && n >= 0
    case SubBody(up, len, cnt) => Levels(up) && 0 <= cnt <= len
    case SubArrayLF(up, n) => Levels(up) && n > 0
    case ElementLF(up) => Levels(up)
    case _ => true
  }

  lemma {:induction false} CloseSound(up: seq<Level>)
    requires Levels(up)
    ensures Sound(Close(up)) && Close(up) != Failed
    decreases |up|
  {
    var top, rest := up[|up| - 1], up[..|up| - 1];
    if top.cnt + 1 == top.num {
      if rest != [] { CloseSound(rest); }
    } else {
      assert up[|up| - 1].cnt < up[|up| - 1].num;
    }
  }

  /** In every state that bytes can lead to, each open array has room for another element
      and there are at most MAX_ARRAY_DEPTH of them. */
  lemma {:induction false} StepSound(s: Parse, ch: byte)
    requires Sound(s)
    ensures Sound(Step(s, ch))
  {
    if s.ElementLF? { CloseSound(s.up); }
    if s.SubArrayLF? { LevelsPush(s.up, s.n); }
    if s.HeadLF? { LevelsPush([], s.n); }
    hide Close, Levels;
  }

  lemma LevelsPush(up: seq<Level>, n: int)
    ensures n > 0 && |up| < MAX_ARRAY_DEPTH && (up == [] || Levels(up)) ==> Levels(up + [Level(n, 0)])
    ensures [] + [Level(n, 0)] == [Level(n, 0)]
  {
  }

  lemma {:induction false} RunSound(s: Parse, bytes: seq<byte>)
    requires Sound(s)
    ensures Sound(Run(s, bytes).state)
    decreases |bytes|
  {
    if bytes != [] && !Over(s) {
      StepSound(s, bytes[0]);
      RunSound(Step(s, bytes[0]), bytes[1..]);
    }
  }

  // ----- printed replies are told apart ------------------------------------------------------------

  function Tag(v: Reply): byte
  {
    match v
    case Status(_) => PLUS
    case Error(_) => MINUS
    case Integer(_) => COLON
    case String(_) => DOLLAR
    case Nil => DOLLAR
    case Array(_) => STAR
    case NilArray => STAR
  }

  /** The first line, without its tag, */
  function FirstLine(v: Reply): seq<byte>
  {
    match v
    case Status(t) => t
    case Error(t) => t
    case Integer(n) => Decimal(n)
    case String(b) => Digits(|b|)
    case Nil => Decimal(-1)
    case Array(es) => Digits(|es|)
    case NilArray => Decimal(-1)
  }

  /** and what follows it. */
  function Behind(v: Reply): seq<byte>
  {
    match v
    case String(b) => b + CRLF
    case Array(es) => EncodeAll(es)
    case _ => []
  }

  lemma Shape(v: Reply)
    requires Printable(v)
    ensures Encode(v) == [Tag(v)] + (FirstLine(v) + (CRLF + Behind(v))) && CR !in FirstLine(v)
  {
    hide Decimal, Digits, EncodeAll;
    match v
    case Integer(n) => NoReturnInDecimal(n);
    case String(b) => NoReturnInDecimal(|b|); NoSign(|b|);
    case Nil => NoReturnInDecimal(-1);
    case Array(es) => NoReturnInDecimal(|es|); NoSign(|es|);
    case NilArray => NoReturnInDecimal(-1);
    case _ =>
  }

  lemma NoSign(n: nat)
    ensures Decimal(n) == Digits(n) && Digits(n)[0] != MINUS && Decimal(-1)[0] == MINUS
  {
  }

  lemma SameLine(t: seq<byte>, u: seq<byte>, x: seq<byte>, y: seq<byte>)
    requires CR !in t && CR !in u && t + (CRLF + x) == u + (CRLF + y)
    ensures t == u && x == y
  {
    var a, b := t + (CRLF + x), u + (CRLF + y);
    assert a[|t|] == CR && b[|u|] == CR;
    assert forall k :: 0 <= k < |t| ==> a[k] == t[k] && t[k] in t;
    assert forall k :: 0 <= k < |u| ==> b[k] == u[k] && u[k] in u;
    assert t == a[..|t|] && u == b[..|u|];
    assert x == a[|t| + 2..] && y == b[|u| + 2..];
  }

  lemma SameCount(m: nat, n: nat)
    requires Digits(m) == Digits(n)
    ensures m == n
  {
    DigitsRoundTrip(m);
    DigitsRoundTrip(n);
  }

  lemma Strip(a: seq<byte>, b: seq<byte>, x: seq<byte>, y: seq<byte>)
    requires a + x == b + y && |a| == |b|
    ensures a == b && x == y
  {
    assert a == (a + x)[..|a|] && b == (b + y)[..|b|];
    assert x == (a + x)[|a|..] && y == (b + y)[|b|..];
  }

  /** Printed replies are told apart: none is the beginning of another, whatever follows, also
      where arrays nest deeper than the parser goes. */
  lemma {:induction false} PrefixFree(v: Reply, w: Reply, x: seq<byte>, y: seq<byte>)
    requires Printable(v) && Printable(w) && Encode(v) + x == Encode(w) + y
    ensures Encode(v) == Encode(w) && x == y
    decreases v
  {
    hide Encode, EncodeAll, Decimal, Digits;
    Shape(v);
    Shape(w);
    SameStart(v, w, x, y);
    if v.String? && w.String? {
      SameCount(|v.body|, |w.body|);
      Strip(v.body + CRLF, w.body + CRLF, x, y);
    } else if v.Array? && w.Array? {
      SameCount(|v.elements|, |w.elements|);
      AllPrefixFree(v.elements, w.elements, x, y);
    } else {
      if v.String? { NoSign(|v.body|); }
      if w.String? { NoSign(|w.body|); }
      if v.Array? { NoSign(|v.elements|); }
      if w.Array? { NoSign(|w.elements|); }
      assert [] + x == x && [] + y == y;
    }
  }

  lemma SameStart(v: Reply, w: Reply, x: seq<byte>, y: seq<byte>)
    requires Encode(v) == [Tag(v)] + (FirstLine(v) + (CRLF + Behind(v))) && CR !in FirstLine(v)
    requires Encode(w) == [Tag(w)] + (FirstLine(w) + (CRLF + Behind(w))) && CR !in FirstLine(w)
    requires Encode(v) + x == Encode(w) + y
    ensures Tag(v) == Tag(w) && FirstLine(v) == FirstLine(w) && Behind(v) + x == Behind(w) + y
  {
    hide Encode, Tag, FirstLine, Behind;
    Lines([Tag(v)], FirstLine(v), Behind(v), x);
    Lines([Tag(w)], FirstLine(w), Behind(w), y);
    Strip([Tag(v)], [Tag(w)], FirstLine(v) + (CRLF + (Behind(v) + x)), FirstLine(w) + (CRLF + (Behind(w) + y)));
    SameLine(FirstLine(v), FirstLine(w), Behind(v) + x, Behind(w) + y);
  }

  lemma Lines(a: seq<byte>, t: seq<byte>, b: seq<byte>, x: seq<byte>)
    ensures a + (t + (CRLF + b)) + x == a + (t + (CRLF + (b + x)))
  {
    assert CRLF + b + x == CRLF + (b + x);
    assert t + (CRLF + b) + x == t + (CRLF + b + x);
  }

  predicate AllPrintable(es: seq<Reply>) { forall i :: 0 <= i < |es| ==> Printable(es[i]) }

  lemma {:induction false} AllPrefixFree(es: seq<Reply>, fs: seq<Reply>, x: seq<byte>, y: seq<byte>)
    requires AllPrintable(es) && AllPrintable(fs) && |es| == |fs| && EncodeAll(es) + x == EncodeAll(fs) + y
    ensures EncodeAll(es) == EncodeAll(fs) && x == y
    decreases es
  {
    hide Encode, Printable;
    if es != [] {
      var a, b := EncodeAll(es[1..]), EncodeAll(fs[1..]);
      Group(Encode(es[0]), a, x);
      Group(Encode(fs[0]), b, y);
      PrefixFree(es[0], fs[0], a + x, b + y);
      AllPrefixFree(es[1..], fs[1..], x, y);
    } else {
      assert [] + x == x && [] + y == y;
    }
  }

  lemma Group(a: seq<byte>, b: seq<byte>, c: seq<byte>)
    ensures (a + b) + c == a + (b + c)
  {
  }

  /** So a row of printed replies is cut into as many in only one way, and what is left when
      fewer are cut off begins with a tag. */
  lemma {:induction false} HowMany(es: seq<Reply>, fs: seq<Reply>, x: seq<byte>)
    requires AllPrintable(es) && AllPrintable(fs) && EncodeAll(es) + x == EncodeAll(fs)
    ensures x == [] ==> |es| == |fs|
    ensures x != [] ==> x[0] in {PLUS, MINUS, COLON, DOLLAR, STAR}
    decreases |es|
  {
    hide Encode, Printable;
    if fs != [] { Shape(fs[0]); }
    if es == [] {
      assert EncodeAll(es) + x == x;
    } else {
      Shape(es[0]);
      var a, b := EncodeAll(es[1..]), EncodeAll(fs[1..]);
      Group(Encode(es[0]), a, x);
      assert Encode(fs[0]) + b == Encode(es[0]) + (a + x);
      PrefixFree(es[0], fs[0], a + x, b);
      HowMany(es[1..], fs[1..], x);
    }
  }
}
