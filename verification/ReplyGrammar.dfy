/** The byte sequences that the reply parser takes for a reply, as a grammar: a little more than
    servers print, and nothing else. */
module ReplyGrammar {
  import opened Bytes
  import opened ReplyFormat

  // ----- the grammar --------------------------------------------------------------------------

  /** Without the minus. */
  function Plain(s: seq<byte>): (d: seq<byte>)
    ensures (forall i :: 0 <= i < |s| ==> IsDigit(s[i]) || s[i] == MINUS) ==> AllDigits(d)
  {
    if s == [] then [] else Plain(s[..|s| - 1]) + if s[|s| - 1] == MINUS then [] else [s[|s| - 1]]
  }

  /** Digits, among which one minus may stand anywhere. */
  ghost predicate Numeral(s: seq<byte>, n: nat, neg: bool)
  {
    && (forall i :: 0 <= i < |s| ==> IsDigit(s[i]) || s[i] == MINUS)
    && multiset(s)[MINUS] == (if neg then 1 else 0) && n == DigitsValue(Plain(s))
  }

  /** A tag, and text up to the end of the line. */
  predicate IsLine(s: seq<byte>, tags: set<byte>)
  {
    |s| >= 3 && s[0] in tags && CR !in s[1..|s| - 2] && s[|s| - 2..] == CRLF
  }

  ghost predicate IsCounted(s: seq<byte>, tag: byte, h: seq<byte>, n: nat, neg: bool, rest: seq<byte>)
  {
    Numeral(h, n, neg) && s == [tag] + (h + CRLF) + rest
  }

  /** A bulk string: as many bytes as announced. A negative length has none; at top level -0 is 0. */
  ghost predicate IsBulk(s: seq<byte>, top: bool)
  {
    exists h: seq<byte>, n: nat, neg: bool, rest: seq<byte> ::
      && IsCounted(s, DOLLAR, h, n, neg, rest)
      && if neg && (n > 0 || !top) then rest == [] else |rest| == n + 2 && rest[n..] == CRLF
  }

  /** An element of an array that is the depth-th of those open. Its own number has no minus. */
  ghost predicate IsElement(s: seq<byte>, depth: nat)
    decreases |s|, 0
  {
    IsLine(s, {PLUS, MINUS, COLON}) || IsBulk(s, false) ||
    exists h: seq<byte>, n: nat, rest: seq<byte> ::
      && IsCounted(s, STAR, h, n, false, rest)
      && if n == 0 then rest == [] else depth < MAX_ARRAY_DEPTH && |rest| < |s| && IsElements(rest, n, depth + 1)
  }

  ghost predicate IsElements(s: seq<byte>, count: nat, depth: nat)
    decreases |s|, 1
  {
    if count == 0 then s == [] else
    exists k :: 0 < k <= |s| && IsElement(s[..k], depth) && IsElements(s[k..], count - 1, depth)
  }

  ghost predicate IsReply(s: seq<byte>, kind: Kind, n: int)
  {
    match kind
    case NoReply => false
    case StatusReply => n == 0 && IsLine(s, {PLUS})
    case ErrorReply => n == 0 && IsLine(s, {MINUS})
    case IntegerReply =>
      exists h: seq<byte>, m: nat, neg: bool :: IsCounted(s, COLON, h, m, neg, []) && n == if neg then 0 - m else m
    case StringReply => n == 0 && IsBulk(s, true)
    case ArrayReply =>
      n == 0 && exists h: seq<byte>, m: nat, neg: bool, rest: seq<byte> ::
        IsCounted(s, STAR, h, m, neg, rest) && if neg || m == 0 then rest == [] else IsElements(rest, m, 1)
  }

  // ----- the parser takes all of these ------------------------------------------------------------

  lemma {:induction false} NumeralReads(use: Use, h: seq<byte>, n: nat, neg: bool)
    requires Numeral(h, n, neg) && (use.SubArray? ==> !neg)
    ensures Reads(Number(use, 0, false), h, Number(use, n, neg))
    decreases |h|
  {
    hide Reads, Numeral;
    if h == [] {
      var _, _ := NumeralLess(h, n, neg);
      ReadsNothing(Number(use, 0, false));
    } else {
      var init, last := h[..|h| - 1], h[|h| - 1];
      assert h == init + [last];
      var m, was := NumeralLess(h, n, neg);
      NumeralReads(use, init, m, was);
      One(Number(use, m, was), last);
      Then(Number(use, 0, false), init, Number(use, m, was), [last], Number(use, n, neg));
    }
  }

  lemma {:induction false} PlainMore(h: seq<byte>, ch: byte)
    requires forall i :: 0 <= i < |h + [ch]| ==> IsDigit((h + [ch])[i]) || (h + [ch])[i] == MINUS
    ensures AllDigits(Plain(h)) && AllDigits(Plain(h + [ch]))
    ensures DigitsValue(Plain(h + [ch]))
         == if ch == MINUS then DigitsValue(Plain(h)) else DigitsValue(Plain(h)) * 10 + (ch - ZERO)
  {
    var t := h + [ch];
    assert t[..|t| - 1] == h && t[|t| - 1] == ch;
    assert forall i :: 0 <= i < |h| ==> h[i] == t[i];
    if ch == MINUS {
      assert Plain(t) == Plain(h) + [] == Plain(h);
    } else {
      assert Plain(t) == Plain(h) + [ch];
      assert Plain(t)[..|Plain(t)| - 1] == Plain(h);
    }
  }

  lemma {:induction false} NumeralMore(h: seq<byte>, n: nat, neg: bool, ch: byte)
    requires Numeral(h, n, neg)
    ensures IsDigit(ch) ==> Numeral(h + [ch], n * 10 + (ch - ZERO), neg)
    ensures ch == MINUS && !neg ==> Numeral(h + [ch], n, true)
  {
    hide Plain, DigitsValue;
    var t := h + [ch];
    if IsDigit(ch) || ch == MINUS {
      PlainMore(h, ch);
      assert multiset(t) == multiset(h) + multiset{ch};
    }
  }

  /** The same without its last byte. */
  lemma {:induction false} NumeralLess(h: seq<byte>, n: nat, neg: bool) returns (m: nat, was: bool)
    requires Numeral(h, n, neg)
    ensures h == [] ==> n == 0 && !neg
    ensures h != [] ==>
              var last := h[|h| - 1];
              && Numeral(h[..|h| - 1], m, was) && (IsDigit(last) || last == MINUS) && (was ==> neg)
              && (IsDigit(last) ==> n == m * 10 + (last - ZERO) && was == neg)
              && (last == MINUS ==> n == m && !was && neg)
  {
    m, was := n, neg;
    if h == [] {
      assert Plain(h) == [] && DigitsValue([]) == 0;
    } else {
      hide Plain, DigitsValue;
      var init, last := h[..|h| - 1], h[|h| - 1];
      assert h == init + [last];
      PlainMore(init, last);
      assert multiset(h) == multiset(init) + multiset{last};
      was := neg && last != MINUS;
      m := DigitsValue(Plain(init));
    }
  }

  lemma ReadsNothing(s: Parse)
    ensures Reads(s, [], s)
  {
  }

  /** A tag, a number, and the end of its line. */
  lemma CountedReads(s: Parse, tag: byte, use: Use, h: seq<byte>, n: nat, neg: bool)
    requires !Over(s) && Step(s, tag) == Number(use, 0, false) && Numeral(h, n, neg) && (use.SubArray? ==> !neg)
    ensures Reads(s, [tag] + (h + CRLF), Step(EndNumber(use, n, neg), LF))
  {
    hide Reads, Numeral;
    var start, m := Number(use, 0, false), EndNumber(use, n, neg);
    NumeralReads(use, h, n, neg);
    One(s, tag);
    ReadCRLF(Number(use, n, neg));
    Then(start, h, Number(use, n, neg), CRLF, Step(m, LF));
    Then(s, [tag], start, h + CRLF, Step(m, LF));
  }

  lemma LineReads(s: Parse, bytes: seq<byte>, tags: set<byte>, line: Parse)
    requires IsLine(bytes, tags) && !Over(s) && Step(s, bytes[0]) == line && (line.Line? || line.InLine?)
    ensures Reads(s, bytes, Step(Step(line, CR), LF))
  {
    hide Reads;
    var text := bytes[1..|bytes| - 2];
    ReadTaggedText(s, bytes[0], line, text);
    assert bytes == [bytes[0]] + (text + CRLF);
  }

  lemma BodyReads(s: Parse, rest: seq<byte>)
    requires (s.Body? || s.SubBody?) && s.cnt == 0 && s.len >= 0 && |rest| == s.len + 2 && rest[s.len..] == CRLF
    ensures var full := s.(cnt := s.len); Reads(s, rest, Step(Step(full, CR), LF))
  {
    hide Reads;
    ReadBodyLine(s, rest[..s.len]);
    assert rest[..s.len] + CRLF == rest;
  }

  lemma {:induction false} ElementReads(s: seq<byte>, up: seq<Level>)
    requires IsElement(s, |up|)
    ensures Reads(Element(up), s, Close(up))
    decreases |s|, 0
  {
    hide Reads, IsLine, IsBulk, IsCounted, Close;
    if IsLine(s, {PLUS, MINUS, COLON}) {
      LineTag(s, {PLUS, MINUS, COLON});
      LineReads(Element(up), s, {PLUS, MINUS, COLON}, InLine(up));
    } else if IsBulk(s, false) {
      SubBulkReads(s, up);
    } else {
      var h: seq<byte>, n: nat, rest: seq<byte> :| IsCounted(s, STAR, h, n, false, rest) &&
        if n == 0 then rest == [] else |up| < MAX_ARRAY_DEPTH && |rest| < |s| && IsElements(rest, n, |up| + 1);
      CountedIs(s, STAR, h, n, false, rest);
      CountedReads(Element(up), STAR, SubArray(up), h, n, false);
      if n == 0 {
        assert s == [STAR] + (h + CRLF);
      } else {
        ElementsRead(rest, up, n, 0);
        Then(Element(up), [STAR] + (h + CRLF), Element(up + [Level(n, 0)]), rest, Close(up));
      }
    }
  }

  lemma LineTag(s: seq<byte>, tags: set<byte>)
    requires IsLine(s, tags)
    ensures |s| >= 3 && s[0] in tags
  {
  }

  lemma CountedIs(s: seq<byte>, tag: byte, h: seq<byte>, n: nat, neg: bool, rest: seq<byte>)
    requires IsCounted(s, tag, h, n, neg, rest)
    ensures Numeral(h, n, neg) && s == [tag] + (h + CRLF) + rest
  {
  }

  lemma SubBulkReads(s: seq<byte>, up: seq<Level>)
    requires IsBulk(s, false)
    ensures Reads(Element(up), s, Close(up))
  {
    hide Reads, IsCounted, Close;
    var h: seq<byte>, n: nat, neg: bool, rest: seq<byte> :| IsCounted(s, DOLLAR, h, n, neg, rest) &&
      if neg then rest == [] else |rest| == n + 2 && rest[n..] == CRLF;
    CountedIs(s, DOLLAR, h, n, neg, rest);
    CountedReads(Element(up), DOLLAR, SubString(up), h, n, neg);
    if neg {
      assert s == [DOLLAR] + (h + CRLF);
    } else {
      BodyReads(SubBody(up, n, 0), rest);
      Then(Element(up), [DOLLAR] + (h + CRLF), SubBody(up, n, 0), rest, Close(up));
    }
  }

  /** The elements that the innermost array still waits for. */
  lemma {:induction false} ElementsRead(s: seq<byte>, up: seq<Level>, num: int, cnt: int)
    requires 0 <= cnt < num && IsElements(s, num - cnt, |up| + 1)
    ensures Reads(Element(up + [Level(num, cnt)]), s, Close(up))
    decreases |s|, 1
  {
    hide Reads, IsElement;
    var k :| 0 < k <= |s| && IsElement(s[..k], |up| + 1) && IsElements(s[k..], num - cnt - 1, |up| + 1);
    var all := up + [Level(num, cnt)];
    ElementReads(s[..k], all);
    assert all[..|up|] == up;
    if cnt + 1 == num {
      assert s[..k] == s;
    } else {
      ElementsRead(s[k..], up, num, cnt + 1);
      Then(Element(all), s[..k], Element(up + [Level(num, cnt + 1)]), s[k..], Close(up));
      assert s[..k] + s[k..] == s;
    }
  }

  lemma ReplyReads(s: seq<byte>, kind: Kind, n: int)
    requires IsReply(s, kind, n)
    ensures Reads(Idle, s, Finished(kind, n))
  {
    hide Reads, IsLine, IsBulk, IsCounted, IsElements;
    match kind {
    case StatusReply =>
      LineTag(s, {PLUS});
      LineReads(Idle, s, {PLUS}, Line(StatusReply));
    case ErrorReply =>
      LineTag(s, {MINUS});
      LineReads(Idle, s, {MINUS}, Line(ErrorReply));
    case IntegerReply =>
      var h: seq<byte>, m: nat, neg: bool :| IsCounted(s, COLON, h, m, neg, []) && n == if neg then 0 - m else m;
      CountedIs(s, COLON, h, m, neg, []);
      CountedReads(Idle, COLON, Head(IntegerReply), h, m, neg);
      assert s == [COLON] + (h + CRLF);
    case StringReply => TopBulkReads(s);
    case ArrayReply => TopArrayReads(s);
    }
  }

  lemma TopBulkReads(s: seq<byte>)
    requires IsBulk(s, true)
    ensures Reads(Idle, s, Finished(StringReply, 0))
  {
    hide Reads, IsCounted;
    var h: seq<byte>, n: nat, neg: bool, rest: seq<byte> :| IsCounted(s, DOLLAR, h, n, neg, rest) &&
      if neg && n > 0 then rest == [] else |rest| == n + 2 && rest[n..] == CRLF;
    CountedIs(s, DOLLAR, h, n, neg, rest);
    CountedReads(Idle, DOLLAR, Head(StringReply), h, n, neg);
    if neg && n > 0 {
      assert s == [DOLLAR] + (h + CRLF);
    } else {
      BodyReads(Body(n, 0), rest);
      Then(Idle, [DOLLAR] + (h + CRLF), Body(n, 0), rest, Finished(StringReply, 0));
    }
  }

  lemma TopArrayReads(s: seq<byte>)
    requires IsReply(s, ArrayReply, 0)
    ensures Reads(Idle, s, Finished(ArrayReply, 0))
  {
    hide Reads, IsCounted, IsElements;
    var h: seq<byte>, n: nat, neg: bool, rest: seq<byte> :| IsCounted(s, STAR, h, n, neg, rest) &&
      if neg || n == 0 then rest == [] else IsElements(rest, n, 1);
    CountedIs(s, STAR, h, n, neg, rest);
    CountedReads(Idle, STAR, Head(ArrayReply), h, n, neg);
    if neg || n == 0 {
      assert s == [STAR] + (h + CRLF);
    } else {
      ElementsRead(rest, [], n, 0);
      assert [] + [Level(n, 0)] == [Level(n, 0)];
      Then(Idle, [STAR] + (h + CRLF), Element([Level(n, 0)]), rest, Close([]));
    }
  }

  // ----- and nothing else --------------------------------------------------------------------------

  predicate Ends(s: Parse, b: seq<byte>) { Run(s, b).state.Finished? }

  /** A run that ends has not failed at the next byte. */
  lemma Next(s: Parse, b: seq<byte>)
    requires !Over(s) && Ends(s, b)
    ensures b != [] && Step(s, b[0]) != Failed && Ends(Step(s, b[0]), b[1..])
  {
    hide Step;
    if b != [] && Step(s, b[0]) == Failed { FailedStays(b[1..]); }
  }

  lemma FailedStays(b: seq<byte>)
    ensures !Ends(Failed, b)
  {
  }

  /** What has been read so far, and one byte more. */
  lemma NextAfter(s: Parse, b: seq<byte>, k: nat, m: Parse)
    requires k <= |b| && Reads(s, b[..k], m) && !Over(m) && Ends(s, b)
    ensures k < |b| && Step(m, b[k]) != Failed && Reads(s, b[..k + 1], Step(m, b[k])) && Ends(m, b[k..])
    ensures Ends(Step(m, b[k]), b[k + 1..])
  {
    RunSplit(s, b[..k], b[k..]);
    assert b[..k] + b[k..] == b;
    Next(m, b[k..]);
    One(m, b[k]);
    Then(s, b[..k], m, [b[k]], Step(m, b[k]));
    assert b[..k] + [b[k]] == b[..k + 1] && b[k..][1..] == b[k + 1..];
  }

  /** The number, after the tag at place 0. */
  lemma NumberEnds(s: Parse, b: seq<byte>, use: Use) returns (k: nat, n: nat, neg: bool)
    requires !Over(s) && b != [] && Step(s, b[0]) == Number(use, 0, false) && Ends(s, b)
    ensures 1 <= k && k + 2 <= |b| && b[k..k + 2] == CRLF && Numeral(b[1..k], n, neg) && (use.SubArray? ==> !neg)
    ensures Reads(s, b[..k + 2], Step(EndNumber(use, n, neg), LF)) && Step(EndNumber(use, n, neg), LF) != Failed
    ensures b[..k + 2] == [b[0]] + (b[1..k] + CRLF)
  {
    hide Reads, Numeral, Ends, Step;
    k, n, neg := 1, 0, false;
    ReadsNothing(s);
    assert b[..0] == [];
    NextAfter(s, b, 0, s);
    EmptyNumeral(b);
    NextAfter(s, b, 1, Number(use, 0, false));
    while b[k] != CR
      invariant 1 <= k < |b| && Numeral(b[1..k], n, neg) && (use.SubArray? ==> !neg)
      invariant Reads(s, b[..k], Number(use, n, neg)) && Step(Number(use, n, neg), b[k]) != Failed
      decreases |b| - k
    {
      NumeralMore(b[1..k], n, neg, b[k]);
      assert b[1..k] + [b[k]] == b[1..k + 1];
      NextAfter(s, b, k, Number(use, n, neg));
      NumberGoesOn(use, n, neg, b[k]);
      if IsDigit(b[k]) { n := n * 10 + (b[k] - ZERO); } else { neg := true; }
      k := k + 1;
      NextAfter(s, b, k, Number(use, n, neg));
    }
    NextAfter(s, b, k, Number(use, n, neg));
    NumberGoesOn(use, n, neg, CR);
    NextAfter(s, b, k + 1, EndNumber(use, n, neg));
    EndsInLF(use, n, neg, b[k + 1]);
    assert b[k..k + 2] == [CR, LF];
  }

  lemma NumberGoesOn(use: Use, n: nat, neg: bool, ch: byte)
    requires Step(Number(use, n, neg), ch) != Failed
    ensures ch == CR || IsDigit(ch) || (ch == MINUS && !neg && !use.SubArray?)
    ensures Step(Number(use, n, neg), ch) == if ch == CR then EndNumber(use, n, neg)
            else if IsDigit(ch) then Number(use, n * 10 + (ch - ZERO), neg) else Number(use, n, true)
  {
  }

  lemma EndsInLF(use: Use, n: nat, neg: bool, ch: byte)
    ensures !Over(EndNumber(use, n, neg)) && (Step(EndNumber(use, n, neg), ch) != Failed ==> ch == LF)
  {
  }

  lemma EmptyNumeral(b: seq<byte>)
    requires b != []
    ensures Numeral(b[1..1], 0, false)
  {
    assert b[1..1] == [];
  }

  /** The text of a line, after its tag. */
  lemma LineEnds(s: Parse, b: seq<byte>, line: Parse, tags: set<byte>) returns (k: nat)
    requires !Over(s) && b != [] && b[0] in tags && Step(s, b[0]) == line && (line.Line? || line.InLine?) && Ends(s, b)
    ensures k <= |b| && IsLine(b[..k], tags) && Reads(s, b[..k], Step(Step(line, CR), LF))
    ensures Step(Step(line, CR), LF) != Failed
  {
    hide Reads, Ends;
    ReadsNothing(s);
    assert b[..0] == [];
    NextAfter(s, b, 0, s);
    var j := 1;
    NextAfter(s, b, 1, line);
    while b[j] != CR
      invariant 1 <= j < |b| && Reads(s, b[..j], line) && CR !in b[1..j]
      decreases |b| - j
    {
      NextAfter(s, b, j, line);
      assert b[1..j + 1] == b[1..j] + [b[j]];
      j := j + 1;
      NextAfter(s, b, j, line);
    }
    NextAfter(s, b, j, line);
    NextAfter(s, b, j + 1, Step(line, CR));
    k := j + 2;
    assert b[..k][1..k - 2] == b[1..j];
  }

  /** The bytes of a bulk string that is at place k. */
  lemma BodyEnds(s: Parse, b: seq<byte>, k: nat, body: Parse)
    requires k <= |b| && Reads(s, b[..k], body) && (body.Body? || body.SubBody?) && body.cnt == 0 && body.len >= 0
    requires Ends(s, b)
    ensures var e := k + body.len + 2;
            && e <= |b| && b[e - 2..e] == CRLF
            && Reads(s, b[..e], Step(Step(body.(cnt := body.len), CR), LF))
            && Step(Step(body.(cnt := body.len), CR), LF) != Failed
  {
    hide Reads, Ends;
    var j := 0;
    while j < body.len
      invariant 0 <= j <= body.len && k + j <= |b| && Reads(s, b[..k + j], body.(cnt := j))
    {
      NextAfter(s, b, k + j, body.(cnt := j));
      j := j + 1;
    }
    NextAfter(s, b, k + j, body.(cnt := j));
    NextAfter(s, b, k + j + 1, Step(body.(cnt := j), CR));
  }

  lemma {:induction false} ElementEnds(up: seq<Level>, b: seq<byte>) returns (k: nat)
    requires Ends(Element(up), b)
    ensures 0 < k <= |b| && IsElement(b[..k], |up|) && Reads(Element(up), b[..k], Close(up))
    decreases |b|, 1
  {
    hide Reads, Ends, IsLine, IsBulk, IsCounted, Close, IsElements;
    var s := Element(up);
    ReadsNothing(s);
    assert b[..0] == [];
    NextAfter(s, b, 0, s);
    if b[0] == DOLLAR {
      k := SubBulkEnds(up, b);
    } else if b[0] == STAR {
      k := SubArrayEnds(up, b);
    } else {
      k := LineEnds(s, b, InLine(up), {PLUS, MINUS, COLON});
      LineTag(b[..k], {PLUS, MINUS, COLON});
    }
  }

  lemma BulkIs(s: seq<byte>, top: bool, h: seq<byte>, n: nat, neg: bool, rest: seq<byte>)
    requires Numeral(h, n, neg) && s == [DOLLAR] + (h + CRLF) + rest
    requires if neg && (n > 0 || !top) then rest == [] else |rest| == n + 2 && rest[n..] == CRLF
    ensures IsBulk(s, top)
  {
    assert IsCounted(s, DOLLAR, h, n, neg, rest);
  }

  lemma SubBulkEnds(up: seq<Level>, b: seq<byte>) returns (k: nat)
    requires Ends(Element(up), b) && b != [] && b[0] == DOLLAR
    ensures 0 < k <= |b| && IsBulk(b[..k], false) && Reads(Element(up), b[..k], Close(up))
  {
    hide Reads, Ends, IsBulk, Numeral, Close;
    var j, n, neg := NumberEnds(Element(up), b, SubString(up));
    k := j + 2;
    if neg {
      BulkIs(b[..k], false, b[1..j], n, neg, []);
    } else {
      BodyEnds(Element(up), b, k, SubBody(up, n, 0));
      k := k + n + 2;
      assert b[..k] == b[..j + 2] + b[j + 2..k] && b[j + 2..k][n..] == b[k - 2..k];
      BulkIs(b[..k], false, b[1..j], n, neg, b[j + 2..k]);
    }
  }

  lemma ArrayIs(s: seq<byte>, depth: nat, h: seq<byte>, n: nat, rest: seq<byte>)
    requires Numeral(h, n, false) && s == [STAR] + (h + CRLF) + rest
    requires if n == 0 then rest == [] else depth < MAX_ARRAY_DEPTH && IsElements(rest, n, depth + 1)
    ensures IsElement(s, depth)
  {
    hide IsLine, IsBulk;
    assert IsCounted(s, STAR, h, n, false, rest);
  }

  lemma {:induction false} SubArrayEnds(up: seq<Level>, b: seq<byte>) returns (k: nat)
    requires Ends(Element(up), b) && b != [] && b[0] == STAR
    ensures 0 < k <= |b| && IsElement(b[..k], |up|) && Reads(Element(up), b[..k], Close(up))
    decreases |b|, 0
  {
    hide Reads, Ends, IsElement, IsElements, Numeral, Close;
    var s := Element(up);
    var j, n, neg := NumberEnds(s, b, SubArray(up));
    k := j + 2;
    if n == 0 {
      ArrayIs(b[..k], |up|, b[1..j], n, []);
    } else {
      var m := Element(up + [Level(n, 0)]);
      NextAfter(s, b, k, m);
      var e := ElementsEnd(up, n, 0, b[k..]);
      Then(s, b[..k], m, b[k..][..e], Close(up));
      assert b[..k] + b[k..][..e] == b[..k + e];
      ArrayIs(b[..k + e], |up|, b[1..j], n, b[k..][..e]);
      k := k + e;
    }
  }

  lemma {:induction false} ElementsEnd(up: seq<Level>, num: int, cnt: int, b: seq<byte>) returns (k: nat)
    requires 0 <= cnt < num && Ends(Element(up + [Level(num, cnt)]), b)
    ensures k <= |b| && IsElements(b[..k], num - cnt, |up| + 1)
    ensures Reads(Element(up + [Level(num, cnt)]), b[..k], Close(up))
    decreases |b|, 2
  {
    hide Reads, Ends, IsElement, IsElements;
    var all := up + [Level(num, cnt)];
    assert all[..|up|] == up;
    k := ElementEnds(all, b);
    if cnt + 1 == num {
      assert b[..k][k..] == [] && b[..k][..k] == b[..k];
      NoElements(|up| + 1);
      FirstElement(b[..k], k, 1, |up| + 1);
    } else {
      var m := Element(up + [Level(num, cnt + 1)]);
      NextAfter(Element(all), b, k, m);
      var e := ElementsEnd(up, num, cnt + 1, b[k..]);
      Then(Element(all), b[..k], m, b[k..][..e], Close(up));
      assert b[..k + e] == b[..k] + b[k..][..e];
      assert b[..k + e][..k] == b[..k] && b[..k + e][k..] == b[k..][..e];
      FirstElement(b[..k + e], k, num - cnt, |up| + 1);
      k := k + e;
    }
  }

  lemma NoElements(depth: nat)
    ensures IsElements([], 0, depth)
  {
  }

  lemma FirstElement(s: seq<byte>, k: nat, count: nat, depth: nat)
    requires 0 < k <= |s| && count > 0 && IsElement(s[..k], depth) && IsElements(s[k..], count - 1, depth)
    ensures IsElements(s, count, depth)
  {
  }

  lemma TopEnds(b: seq<byte>) returns (k: nat, kind: Kind, n: int)
    requires Ends(Idle, b)
    ensures k <= |b| && IsReply(b[..k], kind, n) && Reads(Idle, b[..k], Finished(kind, n))
  {
    hide Reads, Ends, IsLine, IsBulk, IsElements, Numeral;
    ReadsNothing(Idle);
    assert b[..0] == [];
    NextAfter(Idle, b, 0, Idle);
    n := 0;
    if b[0] == PLUS {
      kind := StatusReply;
      k := LineEnds(Idle, b, Line(kind), {PLUS});
    } else if b[0] == MINUS {
      kind := ErrorReply;
      k := LineEnds(Idle, b, Line(kind), {MINUS});
    } else if b[0] == COLON {
      kind := IntegerReply;
      var j, m, neg := NumberEnds(Idle, b, Head(kind));
      k, n := j + 2, m;
      if neg { n := 0 - n; }
      assert IsCounted(b[..k], COLON, b[1..j], m, neg, []);
    } else if b[0] == DOLLAR {
      kind := StringReply;
      k := TopBulkEnds(b);
    } else {
      kind := ArrayReply;
      k := TopArrayEnds(b);
    }
  }

  lemma TopBulkEnds(b: seq<byte>) returns (k: nat)
    requires Ends(Idle, b) && b != [] && b[0] == DOLLAR
    ensures k <= |b| && IsBulk(b[..k], true) && Reads(Idle, b[..k], Finished(StringReply, 0))
  {
    hide Reads, Ends, IsBulk, Numeral;
    var j, n, neg := NumberEnds(Idle, b, Head(StringReply));
    k := j + 2;
    if neg && n > 0 {
      BulkIs(b[..k], true, b[1..j], n, neg, []);
    } else {
      BodyEnds(Idle, b, k, Body(n, 0));
      k := k + n + 2;
      assert b[..k] == b[..j + 2] + b[j + 2..k] && b[j + 2..k][n..] == b[k - 2..k];
      BulkIs(b[..k], true, b[1..j], n, neg, b[j + 2..k]);
    }
  }

  lemma TopArrayEnds(b: seq<byte>) returns (k: nat)
    requires Ends(Idle, b) && b != [] && b[0] == STAR
    ensures k <= |b| && IsReply(b[..k], ArrayReply, 0) && Reads(Idle, b[..k], Finished(ArrayReply, 0))
  {
    hide Reads, Ends, IsElements, Numeral;
    var j, n, neg := NumberEnds(Idle, b, Head(ArrayReply));
    k := j + 2;
    if neg || n == 0 {
      assert IsCounted(b[..k], STAR, b[1..j], n, neg, []);
    } else {
      var m := Element([Level(n, 0)]);
      NextAfter(Idle, b, k, m);
      assert [] + [Level(n, 0)] == [Level(n, 0)];
      var e := ElementsEnd([], n, 0, b[k..]);
      Then(Idle, b[..k], m, b[k..][..e], Close([]));
      assert b[..k] + b[k..][..e] == b[..k + e];
      assert IsCounted(b[..k + e], STAR, b[1..j], n, neg, b[k..][..e]);
      k := k + e;
    }
  }

  /** The parser ends with a reply after k bytes iff these are one. So a byte that does not belong
      there makes it fail, at the latest where the reply would have ended. */
  lemma Accepts(b: seq<byte>, k: nat, kind: Kind, n: int)
    requires k <= |b|
    ensures Run(Idle, b) == Outcome(Finished(kind, n), k) <==> IsReply(b[..k], kind, n)
  {
    hide IsReply;
    assert b[..k] + b[k..] == b;
    if IsReply(b[..k], kind, n) {
      ReplyReads(b[..k], kind, n);
      RunSplit(Idle, b[..k], b[k..]);
    }
    if Run(Idle, b) == Outcome(Finished(kind, n), k) {
      var j, kind', n' := TopEnds(b);
      RunSplit(Idle, b[..j], b[j..]);
      assert b[..j] + b[j..] == b;
    }
  }
}
