/** The reading side of a connection to a server: what is read goes into buffers, and each
    complete reply is recorded as a segment of them. */
module ReplyReader {
  import opened Bytes
  import opened Buffers
  import opened Places
  import F = ReplyFormat
  import P = ResponseParser

  // ----- a stream of replies -----------------------------------------------------------------

  /** The complete replies at the front of a stream, as the automaton cuts them. */
  function Replies(stream: seq<byte>): seq<seq<byte>>
    decreases |stream|
  {
    var r := F.Run(F.Idle, stream);
    if r.state.Finished? && r.used > 0 then [stream[..r.used]] + Replies(stream[r.used..]) else []
  }

  /** What follows them. */
  function Tail(stream: seq<byte>): (t: seq<byte>)
    ensures |t| <= |stream|
    decreases |stream|
  {
    var r := F.Run(F.Idle, stream);
    if r.state.Finished? && r.used > 0 then Tail(stream[r.used..]) else stream
  }

  predicate Good(v: F.Reply) { F.Printable(v) && F.Fits(v, F.MAX_ARRAY_DEPTH) }

  function EncodeEach(vs: seq<F.Reply>): (r: seq<seq<byte>>)
    ensures |r| == |vs| && forall i :: 0 <= i < |vs| ==> r[i] == F.Encode(vs[i])
  {
    if vs == [] then [] else [F.Encode(vs[0])] + EncodeEach(vs[1..])
  }

  /** The automaton cuts a stream of printed replies where the printer did. */
  lemma {:induction false} RepliesOfPrinted(vs: seq<F.Reply>, rest: seq<byte>)
    requires forall i :: 0 <= i < |vs| ==> Good(vs[i])
    ensures Replies(F.EncodeAll(vs) + rest) == EncodeEach(vs) + Replies(rest)
    ensures Tail(F.EncodeAll(vs) + rest) == Tail(rest)
    decreases |vs|
  {
    hide F.Run, F.Encode, Good;
    if vs == [] {
      assert F.EncodeAll(vs) + rest == rest;
    } else {
      var first, more := F.Encode(vs[0]), F.EncodeAll(vs[1..]) + rest;
      var all := F.EncodeAll(vs) + rest;
      assert all == first + more;
      GoodThen(vs[0], more);
      CutFirst(first, more);
      RepliesOfPrinted(vs[1..], rest);
    }
  }

  lemma GoodThen(v: F.Reply, more: seq<byte>)
    requires Good(v)
    ensures F.Encode(v) != [] && F.Run(F.Idle, F.Encode(v) + more).state.Finished?
    ensures F.Run(F.Idle, F.Encode(v) + more).used == |F.Encode(v)|
  {
    EncodeNotEmpty(v);
    F.ReadExactly(v, more);
  }

  lemma CutFirst(first: seq<byte>, more: seq<byte>)
    requires first != [] && F.Run(F.Idle, first + more).state.Finished? && F.Run(F.Idle, first + more).used == |first|
    ensures Replies(first + more) == [first] + Replies(more) && Tail(first + more) == Tail(more)
  {
    hide F.Run;
    assert (first + more)[..|first|] == first && (first + more)[|first|..] == more;
  }

  lemma GoodReads(v: F.Reply)
    requires Good(v)
    ensures F.Reads(F.Idle, F.Encode(v), F.Finished(F.KindOf(v), F.NumberOf(v)))
  {
    F.ReadReply(v);
  }

  lemma EncodeNotEmpty(v: F.Reply)
    ensures F.Encode(v) != []
  {
  }

  /** Before the last byte of the next reply, there is nothing more to cut. */
  lemma TailOfCut(v: F.Reply, n: nat)
    requires Good(v) && n < |F.Encode(v)|
    ensures Replies(F.Encode(v)[..n]) == [] && Tail(F.Encode(v)[..n]) == F.Encode(v)[..n]
  {
    hide F.Encode;
    F.NotOverBefore(v, n);
  }

  lemma PiecesAssoc(a: seq<seq<byte>>, b: seq<seq<byte>>, c: seq<seq<byte>>)
    ensures a + (b + c) == a + b + c
  {
  }

  /** Cutting can go on where it stopped. */
  lemma {:induction false} RepliesSplit(a: seq<byte>, b: seq<byte>)
    requires F.Run(F.Idle, Tail(a)).state != F.Failed
    ensures Replies(a + b) == Replies(a) + Replies(Tail(a) + b) && Tail(a + b) == Tail(Tail(a) + b)
    decreases |a|
  {
    hide F.Run;
    var r := F.Run(F.Idle, a);
    if r.state.Finished? && r.used > 0 {
      F.RunSplit(F.Idle, a, b);
      assert (a + b)[..r.used] == a[..r.used] && (a + b)[r.used..] == a[r.used..] + b;
      RepliesSplit(a[r.used..], b);
      PiecesAssoc([a[..r.used]], Replies(a[r.used..]), Replies(Tail(a) + b));
    }
  }

  // ----- buffers and segments ------------------------------------------------------------------

  /** A reply as it is handed on: the request it answers, its type, the parser's number and its
      segment. */
  datatype Response = Response(request: nat, kind: F.Kind, number: int, begin: Place, end: Place)

  /** The segment's bytes are those of one whole reply, of that type and value. */
  ghost predicate HoldsReply(bufs: seq<seq<byte>>, r: Response, piece: seq<byte>)
  {
    && r.begin.buf < |bufs| && r.end.buf < |bufs|
    && Offset(bufs, r.begin) <= Offset(bufs, r.end) <= |Flat(bufs)|
    && Flat(bufs)[Offset(bufs, r.begin)..Offset(bufs, r.end)] == piece
    && F.Reads(F.Idle, piece, F.Finished(r.kind, if r.kind == F.IntegerReply then r.number else 0))
  }

  ghost predicate Recorded(bufs: seq<seq<byte>>, rs: seq<Response>, pieces: seq<seq<byte>>)
  {
    |rs| == |pieces| && forall i :: 0 <= i < |rs| ==> HoldsReply(bufs, rs[i], pieces[i])
  }

  lemma RecordedGrows(bufs: seq<seq<byte>>, more: seq<seq<byte>>, rs: seq<Response>, pieces: seq<seq<byte>>)
    requires Recorded(bufs, rs, pieces) && Grows(bufs, more)
    ensures Recorded(more, rs, pieces)
  {
    hide Flat, Base, F.Reads;
    forall i | 0 <= i < |rs| ensures HoldsReply(more, rs[i], pieces[i]) {
      assert HoldsReply(bufs, rs[i], pieces[i]);
      var b, e := Offset(bufs, rs[i].begin), Offset(bufs, rs[i].end);
      assert Flat(more)[..|Flat(bufs)|][b..e] == Flat(more)[b..e];
    }
  }

  /** The parser is in the middle of what follows the last complete reply of `stream`. */
  ghost predicate Midway(p: P.Parser, bufs: seq<seq<byte>>, stream: seq<byte>)
    reads p, p.mArrayNum, p.mElementCnt
  {
    && p.Valid() && p.View() == F.Run(F.Idle, Tail(stream)).state && !F.Over(p.View())
    && (Tail(stream) != [] ==> p.begin.buf < |bufs| && Offset(bufs, p.begin) == |stream| - |Tail(stream)|)
  }

  lemma NotFailed(p: P.Parser, bufs: seq<seq<byte>>, stream: seq<byte>)
    requires Midway(p, bufs, stream)
    ensures !F.Run(F.Idle, Tail(stream)).state.Failed?
  {
    hide F.Run, Tail;
  }

  /** What parse on `y` says about the stream x + y. */
  lemma ParseOn(x: seq<byte>, s: F.Parse, y: seq<byte>)
    requires s == F.Run(F.Idle, Tail(x)).state && !F.Over(s) && y != []
    ensures var r := F.Run(s, y);
            && r.used > 0
            && if r.state.Finished? then
                 && Replies(x + y[..r.used]) == Replies(x) + [Tail(x) + y[..r.used]] && Tail(x + y[..r.used]) == []
                 && F.Reads(F.Idle, Tail(x) + y[..r.used], r.state)
               else
                 && Replies(x + y) == Replies(x) && Tail(x + y) == Tail(x) + y
                 && F.Run(F.Idle, Tail(x + y)).state == r.state
  {
    var r := F.Run(s, y);
    var t := Tail(x);
    if r.state.Finished? {
      F.RunSplit(s, y[..r.used], y[r.used..]);
      assert y[..r.used] + y[r.used..] == y;
      PrefixRun(s, y);
      F.RunSplit(F.Idle, t, y[..r.used]);
      CutWhole(t + y[..r.used]);
      RepliesSplit(x, y[..r.used]);
    } else {
      F.RunSplit(F.Idle, t, y);
      RepliesSplit(x, y);
    }
  }

  /** A run that finishes does so on the bytes it used. */
  lemma {:induction false} PrefixRun(s: F.Parse, y: seq<byte>)
    requires F.Over(F.Run(s, y).state)
    ensures F.Run(s, y[..F.Run(s, y).used]) == F.Run(s, y)
    decreases |y|
  {
    if y != [] && !F.Over(s) {
      PrefixRun(F.Step(s, y[0]), y[1..]);
      var n := F.Run(s, y).used;
      assert y[..n][1..] == y[1..][..n - 1];
    }
  }

  lemma {:induction false} CutWhole(piece: seq<byte>)
    requires F.Run(F.Idle, piece).state.Finished? && F.Run(F.Idle, piece).used == |piece|
    ensures Replies(piece) == [piece] && Tail(piece) == []
  {
    assert piece[..|piece|] == piece && piece[|piece|..] == [];
    assert F.Run(F.Idle, []) == F.Outcome(F.Idle, 0);
  }

  /** Everything up to the reply that nobody asked for is recorded, and nothing follows it. */
  ghost predicate OneTooMany(bufs: seq<seq<byte>>, rs: seq<Response>, stream: seq<byte>)
  {
    |Replies(stream)| == |rs| + 1 && Recorded(bufs, rs, Replies(stream)[..|rs|]) && Tail(stream) == []
  }

  /** Reading on behind it fails. */
  lemma OneTooManyAnd(bufs: seq<seq<byte>>, rs: seq<Response>, x: seq<byte>, y: seq<byte>)
    requires OneTooMany(bufs, rs, x) && y != []
    ensures |Replies(x + y)| > |rs| && Recorded(bufs, rs, Replies(x + y)[..|rs|])
    ensures !(|Replies(x + y)| == |rs| + 1 && Tail(x + y) == [])
  {
    hide F.Run, F.Step, Recorded;
    RunNothing();
    RepliesSplit(x, y);
    assert Tail(x) + y == y;
    assert Replies(x + y)[..|rs|] == Replies(x)[..|rs|];
    if Replies(y) == [] { assert Tail(y) == y; }
  }

  lemma OneTooManyGrows(bufs: seq<seq<byte>>, more: seq<seq<byte>>, rs: seq<Response>, stream: seq<byte>)
    requires OneTooMany(bufs, rs, stream) && Grows(bufs, more)
    ensures OneTooMany(more, rs, stream)
  {
    hide Recorded, Grows, Replies, Tail;
    RecordedGrows(bufs, more, rs, Replies(stream)[..|rs|]);
  }

  /** Reply number i answers request number i, and the other requests wait. */
  ghost predicate Answered(rs: seq<Response>, waiting: seq<nat>, sent: seq<nat>)
  {
    && |rs| <= |sent| && waiting == sent[|rs|..]
    && forall i :: 0 <= i < |rs| ==> rs[i].request == sent[i]
  }

  lemma AnsweredFirst(rs: seq<Response>, r: Response, waiting: seq<nat>, sent: seq<nat>)
    requires Answered(rs, waiting, sent) && waiting != [] && r.request == waiting[0]
    ensures Answered(rs + [r], waiting[1..], sent)
  {
  }

  class Connection {
    const parser: P.Parser
    var bufs: seq<seq<byte>>
    /** The requests that were sent and wait for their replies. */
    var mSentRequests: seq<nat>
    var responses: seq<Response>
    /** All requests that were sent. */
    ghost var sent: seq<nat>

    /** Response number i answers request number i. */
    ghost predicate InOrder()
      reads this`responses, this`mSentRequests, this`sent
    {
      Answered(responses, mSentRequests, sent)
    }

    /** The parser was not reset after its last reply: nobody had asked for it. */
    ghost predicate Stuck()
      reads parser, parser.mArrayNum, parser.mElementCnt
    {
      parser.Valid() && parser.View().Finished?
    }

    ghost predicate At(stream: seq<byte>)
      reads this`bufs, this`responses, parser, parser.mArrayNum, parser.mElementCnt
    {
      if Stuck() then OneTooMany(bufs, responses, stream)
      else Midway(parser, bufs, stream) && Recorded(bufs, responses, Replies(stream))
    }

    ghost predicate Valid()
      reads this, parser, parser.mArrayNum, parser.mElementCnt
    {
      InOrder() && At(Flat(bufs))
    }

    constructor ()
      ensures Valid() && bufs == [] && responses == [] && mSentRequests == [] && sent == [] && !Stuck()
    {
      parser := new P.Parser();
      bufs, responses, mSentRequests, sent := [], [], [], [];
    }

    /** More bytes behind it change nothing for what was read. */
    twostate lemma StillAt(stream: seq<byte>)
      requires old(At(stream)) && Grows(old(bufs), bufs) && responses == old(responses)
      requires unchanged(parser, parser.mArrayNum, parser.mElementCnt)
      ensures At(stream) && Stuck() == old(Stuck())
    {
      hide Flat, Base, Recorded, Replies, Tail, F.Run, F.Sound, OneTooMany;
      assert parser.View() == old(parser.View()) && parser.Valid() == old(parser.Valid());
      if Stuck() {
        OneTooManyGrows(old(bufs), bufs, responses, stream);
      } else {
        RecordedGrows(old(bufs), bufs, responses, Replies(stream));
      }
    }

    /** write: a request has been sent completely. */
    method Send(request: nat)
      requires Valid()
      modifies this`mSentRequests, this`sent
      ensures Valid() && sent == old(sent) + [request] && mSentRequests == old(mSentRequests) + [request]
      ensures Stuck() == old(Stuck())
    {
      hide At, Stuck, Flat;
      mSentRequests := mSentRequests + [request];
      sent := sent + [request];
    }

    /** The bytes of one read, at the end of the last buffer or in a new one. As many replies
        are recorded as requests wait. The connection goes on as long as the bytes are replies;
        one reply more than requests is passed over if nothing follows it, but then the next
        byte fails, even if a request was sent in between. */
    method ReadEvent(bytes: seq<byte>, newBuf: bool) returns (ok: bool)
      requires Valid() && (newBuf || bufs != [])
      modifies this`bufs, this`mSentRequests, this`responses, parser, parser.mArrayNum, parser.mElementCnt
      ensures Flat(bufs) == old(Flat(bufs)) + bytes && InOrder()
      ensures ok ==> Valid()
      ensures old(Stuck()) ==> responses == old(responses) && (ok <==> bytes == []) && (ok ==> Stuck())
      ensures !old(Stuck()) ==> Recording(ok)
    {
      hide F.Run, F.Step, Base, Flat, Stuck, At, Grows, InOrder, Recording;
      ghost var before := bufs;
      ReadGrows(bufs, bytes, newBuf);
      var pos: nat := 0;
      if newBuf {
        bufs := bufs + [bytes];
      } else {
        var n := |bufs| - 1;
        pos := |bufs[n]|;
        bufs := bufs[n := bufs[n] + bytes];
      }
      StillAt(Flat(before));
      ok := Handle(pos, Flat(before), bytes);
    }

    /** As many replies are recorded as were asked for; `ok` if the bytes are replies and at most
        one too many, with nothing behind it. */
    ghost predicate Recording(ok: bool)
      reads this, parser, parser.mArrayNum, parser.mElementCnt
    {
      var rs := Replies(Flat(bufs));
      if |rs| <= |sent| then
        && Recorded(bufs, responses, rs) && (ok ==> !Stuck())
        && (ok <==> !F.Run(F.Idle, Tail(Flat(bufs))).state.Failed?)
      else
        && Recorded(bufs, responses, rs[..|sent|]) && (ok ==> Stuck())
        && (ok <==> |rs| == |sent| + 1 && Tail(Flat(bufs)) == [])
    }

    lemma AtRecords()
      requires InOrder() && At(Flat(bufs)) && (Stuck() ==> |responses| == |sent|)
      ensures Recording(true)
    {
      hide Replies, Tail, F.Run, Flat, HoldsReply;
      if !Stuck() { NotFailed(parser, bufs, Flat(bufs)); }
    }

    lemma AfterTurn(ok: bool, stream: seq<byte>)
      requires InOrder() && stream == Flat(bufs) && Recorded(bufs, responses, Replies(stream)) && (ok ==> !Stuck())
      requires ok <==> !F.Run(F.Idle, Tail(stream)).state.Failed?
      ensures Recording(ok)
    {
      hide Replies, Tail, F.Run, Flat, HoldsReply, Stuck;
    }

    lemma BeyondLast(x: seq<byte>, y: seq<byte>)
      requires OneTooMany(bufs, responses, x) && |responses| == |sent| && y != [] && x + y == Flat(bufs)
      ensures Recording(false)
    {
      hide Replies, Tail, F.Run, Flat, HoldsReply, Recorded;
      OneTooManyAnd(bufs, responses, x, y);
    }

    /** However the printed replies were cut into reads, and whenever the requests were sent:
        the complete ones are recorded, each as the segment of its own bytes, with its type and
        its value, and for the request that it answers; all but the last one if nobody had
        asked for that. */
    lemma ResponsesAreReplies(vs: seq<F.Reply>, next: F.Reply, n: nat)
      requires Valid() && (forall i :: 0 <= i < |vs| ==> Good(vs[i])) && Good(next) && n < |F.Encode(next)|
      requires Flat(bufs) == F.EncodeAll(vs) + F.Encode(next)[..n]
      ensures |responses| == if Stuck() then |vs| - 1 else |vs|
      ensures Stuck() ==> n == 0
      ensures forall i :: 0 <= i < |responses| ==>
                && HoldsReply(bufs, responses[i], F.Encode(vs[i]))
                && responses[i].kind == F.KindOf(vs[i]) && (vs[i].Integer? ==> responses[i].number == vs[i].value)
                && responses[i].request == sent[i]
    {
      hide Flat, Base, F.Encode, F.EncodeAll, F.Run, Replies, Tail, Good, Stuck;
      TailOfCut(next, n);
      RepliesOfPrinted(vs, F.Encode(next)[..n]);
      forall i | 0 <= i < |responses|
        ensures HoldsReply(bufs, responses[i], F.Encode(vs[i]))
        ensures responses[i].kind == F.KindOf(vs[i]) && (vs[i].Integer? ==> responses[i].number == vs[i].value)
      {
        assert HoldsReply(bufs, responses[i], EncodeEach(vs)[i]);
        GoodReads(vs[i]);
      }
    }

    lemma InOrderIs()
      ensures InOrder() <==> Answered(responses, mSentRequests, sent)
      ensures InOrder() ==> |responses| + |mSentRequests| == |sent|
    {
    }

    lemma NothingBegun(stream: seq<byte>)
      requires Tail(stream) == []
      ensures Begun(stream) && !F.Over(F.Idle)
    {
    }

    lemma StuckMeans(x: seq<byte>)
      requires At(x) && Stuck()
      ensures OneTooMany(bufs, responses, x)
    {
    }

    /** Where a reply begins that is not complete. */
    ghost predicate Begun(stream: seq<byte>)
      reads this`bufs, parser`begin
    {
      Tail(stream) != [] ==>
        parser.begin.buf < |bufs| && Offset(bufs, parser.begin) == |stream| - |Tail(stream)|
    }

    lemma BeforeTurn(x: seq<byte>)
      requires At(x)
      ensures parser.mDepth <= parser.mArrayNum.Length && parser.mDepth <= parser.mElementCnt.Length
      ensures parser.Valid() && parser.View() != F.Failed && (Stuck() <==> parser.View().Finished?)
      ensures !Stuck() ==>
                && parser.View() == F.Run(F.Idle, Tail(x)).state && !F.Over(parser.View()) && Begun(x)
                && Recorded(bufs, responses, Replies(x)) && (parser.View() == F.Idle <==> Tail(x) == [])
    {
      hide F.Run, Replies, Tail, Recorded, F.Sound;
      IdleIffNothing(Tail(x));
    }

    lemma PartWay(stream: seq<byte>)
      requires parser.Valid() && parser.View() == F.Run(F.Idle, Tail(stream)).state && !F.Over(parser.View())
      requires Begun(stream) && Recorded(bufs, responses, Replies(stream))
      ensures At(stream) && !Stuck()
    {
      hide F.Run, Replies, Tail, Recorded, F.Sound;
    }

    /** handleResponse: the reply goes to the first request that waits; without one, the
        parser is left as it is. */
    method HandleResponse(ghost x: seq<byte>, ghost piece: seq<byte>, ghost end: seq<byte>)
      requires InOrder() && parser.Valid() && parser.View().Finished? && Recorded(bufs, responses, Replies(x))
      requires Replies(end) == Replies(x) + [piece] && Tail(end) == []
      requires forall id: nat ::
                 HoldsReply(bufs, Response(id, parser.mType, parser.mInteger, parser.begin, parser.end), piece)
      modifies this`mSentRequests, this`responses, parser
      ensures InOrder() && At(end) && Stuck() == old(mSentRequests == []) && (Stuck() ==> |responses| == |sent|)
    {
      hide *;
      InOrderIs();
      if mSentRequests != [] {
        var response := Response(mSentRequests[0], parser.mType, parser.mInteger, parser.begin, parser.end);
        OneMore(bufs, responses, Replies(x), response, piece);
        responses := responses + [response];
        parser.Reset();
        mSentRequests := mSentRequests[1..];
        RunNothing();
        NothingBegun(end);
        AnsweredFirst(old(responses), response, old(mSentRequests), sent);
        InOrderIs();
        PartWay(end);
      } else {
        LeftAlone(x, piece, end);
      }
    }

    lemma LeftAlone(x: seq<byte>, piece: seq<byte>, end: seq<byte>)
      requires parser.Valid() && parser.View().Finished? && Recorded(bufs, responses, Replies(x))
      requires Replies(end) == Replies(x) + [piece] && Tail(end) == []
      ensures At(end) && Stuck()
    {
      hide F.Run, Replies, Tail, HoldsReply, F.Sound;
      assert Replies(end)[..|responses|] == Replies(x);
    }

    /** A turn of the loop of parse, at the bytes y behind x. */
    method Turn(pos: nat, ghost x: seq<byte>, ghost y: seq<byte>) returns (result: P.Result, next: nat, ghost used: nat)
      requires bufs != [] && pos < |bufs[|bufs| - 1]| && y == bufs[|bufs| - 1][pos..]
      requires x + y == Flat(bufs) && |x| == Base(bufs, |bufs| - 1) + pos
      requires InOrder() && At(x)
      modifies this`mSentRequests, this`responses, parser, parser.mArrayNum, parser.mElementCnt
      ensures InOrder()
      ensures old(Stuck()) ==> result == P.ParseError && responses == old(responses)
      ensures result == P.Complete ==>
                used <= |y| && used > 0 && next == pos + used && At(x + y[..used])
                && (Stuck() ==> |responses| == |sent|)
      ensures !old(Stuck()) && result != P.Complete ==>
                && (result != P.ParseError ==> !Stuck() && At(x + y)) && Recorded(bufs, responses, Replies(x + y))
                && (result == P.ParseError <==> F.Run(F.Idle, Tail(x + y)).state.Failed?)
    {
      hide F.Run, F.Step, F.Sound, F.Reads, Replies, Tail, Recorded, HoldsReply, Base, Flat, P.HeadState, OneTooMany;
      hide Midway, At, Stuck, InOrder, Answered, P.Parser.View, P.Parser.Valid;
      var id := |bufs| - 1;
      BeforeTurn(x);
      ghost var s, t := parser.View(), Tail(x);
      if !Stuck() { ParseOn(x, s, y); }
      result, next := parser.Parse(bufs[id], pos, id);
      ghost var r := F.Run(s, y);
      used := r.used;
      if result == P.Complete {
        forall id: nat
          ensures HoldsReply(bufs, Response(id, parser.mType, parser.mInteger, parser.begin, parser.end), t + y[..used])
        {
          var response := Response(id, parser.mType, parser.mInteger, parser.begin, parser.end);
          FinishedView(parser);
          SegmentHolds(bufs, x, y, used, t, response, r.state);
        }
        HandleResponse(x, t + y[..used], x + y[..used]);
      } else if result != P.ParseError {
        PartWay(x + y);
      }
    }

    /** The loop of parse: takes replies from the last buffer, from `pos0` on. */
    method Handle(pos0: nat, ghost x0: seq<byte>, ghost y0: seq<byte>) returns (ok: bool)
      requires bufs != [] && pos0 <= |bufs[|bufs| - 1]| && y0 == bufs[|bufs| - 1][pos0..]
      requires x0 + y0 == Flat(bufs) && |x0| == Base(bufs, |bufs| - 1) + pos0
      requires InOrder() && At(x0)
      modifies this`mSentRequests, this`responses, parser, parser.mArrayNum, parser.mElementCnt
      ensures InOrder() && (ok ==> At(Flat(bufs)))
      ensures old(Stuck()) ==> responses == old(responses) && (ok <==> y0 == []) && (ok ==> Stuck())
      ensures !old(Stuck()) ==> Recording(ok)
    {
      hide *;
      var id := |bufs| - 1;
      var buf := bufs[id];
      var pos := pos0;
      ghost var x, y := x0, y0;
      while pos < |buf|
        invariant pos <= |buf| && y == buf[pos..] && x + y == Flat(bufs) && |x| == Base(bufs, id) + pos
        invariant InOrder() && At(x)
        invariant if old(Stuck()) then Stuck() && x == x0 && y == y0 && responses == old(responses)
                  else Stuck() ==> |responses| == |sent|
      {
        ghost var stuck := Stuck();
        if stuck { StuckMeans(x); }
        var result, next;
        ghost var used;
        result, next, used := Turn(pos, x, y);
        if result == P.Complete {
          x, y, pos := x + y[..used], y[used..], next;
        } else {
          ok := result != P.ParseError;
          if !stuck {
            AfterTurn(ok, x + y);
          } else if !old(Stuck()) {
            BeyondLast(x, y);
          }
          return;
        }
      }
      assert x == Flat(bufs);
      if !old(Stuck()) { AtRecords(); }
      return true;
    }
  }

  lemma IdleIffNothing(t: seq<byte>)
    ensures F.Run(F.Idle, t).state == F.Idle <==> t == []
  {
    if t != [] { NeverIdle(F.Step(F.Idle, t[0]), t[1..]); }
  }

  lemma {:induction false} NeverIdle(s: F.Parse, t: seq<byte>)
    requires s != F.Idle
    ensures F.Run(s, t).state != F.Idle
    decreases |t|
  {
    if t != [] && !F.Over(s) {
      P.NotIdleAgain(s, t[0], t[1..]);
      NeverIdle(F.Step(s, t[0]), t[1..]);
    }
  }

  lemma FinishedView(p: P.Parser)
    requires p.Valid() && p.View().Finished?
    ensures p.View() == F.Finished(p.mType, if p.mType == F.IntegerReply then p.mInteger else 0)
  {
  }

  lemma RunNothing()
    ensures F.Run(F.Idle, []) == F.Outcome(F.Idle, 0)
  {
  }

  lemma OneMore(bufs: seq<seq<byte>>, rs: seq<Response>, pieces: seq<seq<byte>>, r: Response, piece: seq<byte>)
    requires Recorded(bufs, rs, pieces) && HoldsReply(bufs, r, piece)
    ensures Recorded(bufs, rs + [r], pieces + [piece])
  {
    hide HoldsReply;
  }

  /** From where the reply began to where the parser is now are its bytes. */
  lemma SegmentHolds(bufs: seq<seq<byte>>, x: seq<byte>, y: seq<byte>, used: nat, t: seq<byte>, r: Response, s: F.Parse)
    requires x + y == Flat(bufs) && used <= |y| && t == Tail(x)
    requires r.begin.buf < |bufs| && r.end.buf < |bufs|
    requires Offset(bufs, r.begin) == |x| - |t| && Offset(bufs, r.end) == |x| + used
    requires s == F.Finished(r.kind, if r.kind == F.IntegerReply then r.number else 0)
    requires F.Reads(F.Idle, t + y[..used], s)
    ensures HoldsReply(bufs, r, t + y[..used])
  {
    hide *;
    TailIsSuffix(x);
    Across(x, y, |t|, used);
    HoldsPiece(bufs, r, t + y[..used], |x| - |t|, |x| + used);
  }

  lemma HoldsPiece(bufs: seq<seq<byte>>, r: Response, piece: seq<byte>, b: nat, e: nat)
    requires r.begin.buf < |bufs| && r.end.buf < |bufs| && b <= e <= |Flat(bufs)|
    requires Offset(bufs, r.begin) == b && Offset(bufs, r.end) == e && Flat(bufs)[b..e] == piece
    requires F.Reads(F.Idle, piece, F.Finished(r.kind, if r.kind == F.IntegerReply then r.number else 0))
    ensures HoldsReply(bufs, r, piece)
  {
    hide Base, Flat, F.Reads, F.Run, Offset;
  }

  lemma {:induction false} TailIsSuffix(x: seq<byte>)
    ensures Tail(x) == x[|x| - |Tail(x)|..]
    decreases |x|
  {
    hide F.Run;
    var r := F.Run(F.Idle, x);
    if r.state.Finished? && r.used > 0 {
      TailIsSuffix(x[r.used..]);
      assert x[r.used..][|x| - r.used - |Tail(x)|..] == x[|x| - |Tail(x)|..];
    }
  }
}
