/** predixy's resumable request parser, for the commands of many keys, and the queue of
    requests that a client connection makes of the pieces. */
module RequestParser {
  import opened Bytes
  import opened AofFormat
  import opened Options
  import opened Buffers
  import opened Places
  import F = RequestFormat
  import K = RequestKeys
  import R = RequestReads

  datatype State =
    | Idle | ArgNum | ArgNumLF | CmdTag | CmdLen | CmdLenLF | CmdBody | CmdBodyLF
    | SArgTag | SArgLen | SArgLenLF | SArgBody | SArgBodyLF | Finished

  datatype Result = Normal | Partial | Complete | ParseError | Other

  /** Where an offset is, once the bytes from offset `at` on have been taken, which are those of
      buffer `id` from `pos` on; what was seen before is where it was. */
  function PlaceOf(off: Option<nat>, at: nat, id: nat, pos: nat, was: Option<Place>): Option<Place>
  {
    if off.Some? && off.value >= at then Some(Place(id, pos + (off.value - at))) else was
  }

  /** What a sequence ends with. */
  predicate EndsWith(a: seq<byte>, b: seq<byte>) { |b| <= |a| && a[|a| - |b|..] == b }

  /** The parser as a value: the automaton's state, the bytes since the request's begin, the
      offsets of the key, and the places of all three. */
  datatype Snap = Snap(state: F.State, req: seq<byte>, key: K.Key, reqBegin: Place, keyBegin: Option<Place>,
                       keyEnd: Option<Place>)

  /** From s to t, by the bytes from a to b of buffer `id`, of which the first has the number `at`
      in the stream: pieces and keys are those of the automata; the request and its key begin, and
      the key ends, at the places of the bytes where the automata see it. */
  ghost predicate Took(s: Snap, t: Snap, cut: F.Cutting, keying: K.Keying, buf: seq<byte>, a: nat, b: nat, id: nat,
                       split: bool, at: nat)
  {
    && a <= b <= |buf| && F.Cuts(s.state, buf[a..b], split) == cut
    && K.Keyed(at, s.key, s.state, buf[a..b], split) == keying
    && ReqIn(s.req, s.reqBegin, t.req, t.reqBegin, buf[a..b], b, id)
    && K.SeenBefore(t.key, at + (b - a))
    && Seen(s.key.from, s.keyBegin, t.key.from, t.keyBegin, a, id, at)
    && Seen(s.key.to, s.keyEnd, t.key.to, t.keyEnd, a, id, at)
  }

  /** The request goes on with these bytes, which end at `b`, or begins in them. */
  ghost predicate ReqIn(was: seq<byte>, placeWas: Place, req: seq<byte>, place: Place, bytes: seq<byte>, b: nat,
                        id: nat)
    requires |bytes| <= b
  {
    && EndsWith(was + bytes, req) && (|req| <= |bytes| || req == was + bytes)
    && (req != [] ==> place == if |req| <= |bytes| then Place(id, b - |req|) else placeWas)
  }

  /** An offset stays, or is one in the bytes from `at` on, which begin at `a`. */
  ghost predicate Seen(was: Option<nat>, placeWas: Option<Place>, off: Option<nat>, place: Option<Place>, a: nat,
                       id: nat, at: nat)
  {
    (off == was || (off.Some? && off.value >= at)) && place == PlaceOf(off, at, id, a, placeWas)
  }

  /** Nothing has come out so far. */
  ghost predicate TookQuietly(s: Snap, t: Snap, buf: seq<byte>, a: nat, b: nat, id: nat, split: bool, at: nat)
  {
    Took(s, t, F.Cutting([], t.state), K.Keying([], t.key), buf, a, b, id, split, at)
  }

  lemma TookNothing(s: Snap, buf: seq<byte>, pos: nat, id: nat, split: bool, at: nat)
    requires pos <= |buf| && K.SeenBefore(s.key, at)
    ensures TookQuietly(s, s, buf, pos, pos, id, split, at)
  {
    NoBytes(s.state, buf, pos, split);
    K.NothingKeyed(at, s.key, s.state, split);
    assert buf[pos..pos] == [] && s.req + [] == s.req;
  }

  lemma TookMore(s: Snap, m: Snap, t: Snap, cut: F.Cutting, keying: K.Keying, buf: seq<byte>, a: nat, b: nat, c: nat,
                 id: nat, split: bool, at: nat)
    requires TookQuietly(s, m, buf, a, b, id, split, at) && b < c
    requires Took(m, t, cut, keying, buf, b, c, id, split, at + (b - a))
    ensures Took(s, t, cut, keying, buf, a, c, id, split, at)
  {
    hide F.Cuts, K.Keyed, ReqIn, Seen;
    MoreRun(s.state, m.state, buf, a, b, c, split);
    MoreKeys(at, s.key, m.key, s.state, m.state, buf, a, b, c, split);
    assert buf[a..b] + buf[b..c] == buf[a..c];
    ReqMore(s.req, s.reqBegin, m.req, m.reqBegin, t.req, t.reqBegin, buf[a..b], buf[b..c], b, c, id);
    SeenMore(s.key.from, s.keyBegin, m.key.from, m.keyBegin, t.key.from, t.keyBegin, a, b, id, at);
    SeenMore(s.key.to, s.keyEnd, m.key.to, m.keyEnd, t.key.to, t.keyEnd, a, b, id, at);
  }

  lemma ReqMore(was: seq<byte>, placeWas: Place, m: seq<byte>, placeM: Place, req: seq<byte>, place: Place,
                x: seq<byte>, z: seq<byte>, b: nat, c: nat, id: nat)
    requires |x| <= b && c == b + |z|
    requires ReqIn(was, placeWas, m, placeM, x, b, id) && ReqIn(m, placeM, req, place, z, c, id)
    ensures ReqIn(was, placeWas, req, place, x + z, c, id)
  {
    hide EndsWith;
    EndsOn(was, m, req, x, z);
    assert was + x + z == was + (x + z);
  }

  lemma SeenMore(was: Option<nat>, placeWas: Option<Place>, m: Option<nat>, placeM: Option<Place>, off: Option<nat>,
                 place: Option<Place>, a: nat, b: nat, id: nat, at: nat)
    requires a <= b && Seen(was, placeWas, m, placeM, a, id, at) && Seen(m, placeM, off, place, b, id, at + (b - a))
    requires m.Some? ==> m.value < at + (b - a)
    ensures Seen(was, placeWas, off, place, a, id, at)
  {
  }

  lemma EndsOn(was: seq<byte>, m: seq<byte>, req: seq<byte>, x: seq<byte>, z: seq<byte>)
    requires EndsWith(was + x, m) && EndsWith(m + z, req)
    ensures EndsWith(was + (x + z), req)
  {
    var y := was + x;
    assert was + (x + z) == y + z;
    assert (y + z)[|y| - |m|..] == m + z;
    assert (y + z)[|y + z| - |req|..] == (y + z)[|y| - |m|..][|m + z| - |req|..];
  }

  class Parser {
    var mState: State
    var mArgNum: int
    var mArgCnt: int
    var mArgLen: int
    var mArgBodyCnt: int
    var mCmd: seq<byte>
    var mCommand: F.Cmd
    var reqBegin: Place
    var reqEnd: Place
    var keyBegin: Option<Place>
    var keyEnd: Option<Place>
    ghost var req: seq<byte>       // the bytes since reqBegin
    ghost var key: K.Key           // the offsets of keyBegin and keyEnd

    /** The state of the automaton that the fields stand for. */
    ghost function View(): F.State
      reads this`mState, this`mArgNum, this`mArgCnt, this`mArgLen, this`mArgBodyCnt, this`mCmd, this`mCommand, this`req
    {
      match mState
      case Idle => F.START
      case ArgNum => F.State(F.Number(F.ArgCount, mArgNum), req)
      case ArgNumLF => F.State(F.NumberLF(F.ArgCount, mArgNum), req)
      case CmdTag => F.State(F.CmdTag(mArgNum), req)
      case CmdLen => F.State(F.Number(F.CmdLength(mArgNum), mArgLen), req)
      case CmdLenLF => F.State(F.NumberLF(F.CmdLength(mArgNum), mArgLen), req)
      case CmdBody => F.State(F.CmdBody(mArgNum, mArgLen, mCmd), req)
      case CmdBodyLF => F.State(F.CmdBodyLF(mArgNum, mCmd), req)
      case SArgTag => F.State(F.ArgTag(mCommand, mArgNum, mArgCnt), req)
      case SArgLen => F.State(F.Number(F.ArgLength(mCommand, mArgNum, mArgCnt), mArgLen), req)
      case SArgLenLF => F.State(F.NumberLF(F.ArgLength(mCommand, mArgNum, mArgCnt), mArgLen), req)
      case SArgBody => F.State(F.ArgBody(mCommand, mArgNum, mArgCnt, mArgLen, mArgBodyCnt), req)
      case SArgBodyLF => F.State(F.ArgBodyLF(mCommand, mArgNum, mArgCnt), req)
      case Finished => F.START
    }

    ghost function Snapshot(): Snap
      reads this`mState, this`mArgNum, this`mArgCnt, this`mArgLen, this`mArgBodyCnt, this`mCmd, this`mCommand, this`req
      reads this`reqBegin, this`keyBegin, this`keyEnd, this`key
    {
      Snap(View(), req, key, reqBegin, keyBegin, keyEnd)
    }

    ghost predicate Valid()
      reads this`mState, this`mArgNum, this`mArgCnt, this`mArgLen, this`mArgBodyCnt, this`mCmd, this`mCommand, this`req
    {
      && mArgLen >= 0
      && (mState == SArgBody ==> 0 <= mArgBodyCnt <= mArgLen)
      && (mState == CmdBody ==> mArgBodyCnt == |mCmd| <= mArgLen)
      && (mState == Idle <==> req == [])
      && (mState in {ArgNumLF, CmdTag, CmdLen, CmdLenLF, CmdBody, CmdBodyLF} ==> mState == ArgNumLF || mArgCnt == 0)
    }

    constructor ()
      ensures Valid() && View() == F.START && key == K.NO_KEY && keyBegin == None && keyEnd == None
    {
      mState, mArgNum, mArgCnt, mArgLen, mArgBodyCnt, mCmd, mCommand := Idle, 0, 0, 0, 0, [], F.Del;
      reqBegin, reqEnd, keyBegin, keyEnd := Place(0, 0), Place(0, 0), None, None;
      req, key := [], K.NO_KEY;
    }

    method Reset()
      modifies this
      ensures Valid() && View() == F.START && mState == Idle
      ensures key == K.NO_KEY && keyBegin == None && keyEnd == None
    {
      mState, mArgNum, mArgCnt, mArgLen, mArgBodyCnt, mCmd := Idle, 0, 0, 0, 0, [];
      reqBegin, reqEnd, keyBegin, keyEnd := Place(0, 0), Place(0, 0), None, None;
      req, key := [], K.NO_KEY;
    }

    /** What a turn of the loop on one byte does, if the command is one of those modelled. */
    twostate predicate Steps(ch: byte, split: bool, result: Result)
      reads this
    {
      var t := F.Step(old(View()), ch, split);
      match result
      case ParseError => t.state.phase == F.Failed
      case Other => t.state.phase == F.OtherCommand
      case Normal => Valid() && View() == t.state && t.out == None && mState != Finished
      case Partial =>
        && Valid() && View() == t.state
        && t.out == Some(F.Piece(req, false, mCommand, mArgNum)) && mState != Finished && mState != Idle
      case Complete =>
        && Valid() && View() == t.state
        && t.out == Some(F.Piece(req, true, mCommand, mArgNum)) && mState == Finished
    }

    /** The states of the first line. */
    method First(ch: byte, here: Place, split: bool) returns (result: Result)
      requires Valid() && mState in {Idle, ArgNum, ArgNumLF}
      modifies this`req, this`reqBegin, this`mState, this`mArgNum, this`mArgCnt
      ensures Steps(ch, split, result) && result != Partial && result != Complete
      ensures result == Normal ==>
                reqBegin == (if |req| == 1 then here else old(reqBegin)) && (req == [ch] || req == old(req) + [ch])
    {
      result := Normal;
      if mState != Idle {
        hide F.Step;
        StepNumber(F.ArgCount, mArgNum, req, ch, split);
      }
      req := if mState == Idle then [ch] else req + [ch];
      match mState
      case Idle =>
        mArgNum := 0;
        if ch == STAR { reqBegin, mState := here, ArgNum; } else { result := Other; }
      case ArgNum =>
        if IsDigit(ch) {
          mArgNum := mArgNum * 10 + (ch - ZERO);
        } else if ch == CR {
          if mArgNum > 0 { mState := ArgNumLF; } else { result := ParseError; }
        } else {
          result := ParseError;
        }
      case ArgNumLF =>
        mArgCnt := 0;
        if ch == LF { mState := CmdTag; } else { result := ParseError; }
    }

    /** The line with the name's length. */
    method NameHead(ch: byte, split: bool) returns (result: Result)
      requires Valid() && mState in {CmdTag, CmdLen, CmdLenLF}
      modifies this`req, this`mState, this`mArgLen, this`mArgBodyCnt, this`mCmd
      ensures Steps(ch, split, result) && result != Partial && result != Complete && req == old(req) + [ch] && |req| > 1
    {
      hide F.Step, F.IsSplit;
      StepTag(mArgNum, mCommand, mArgCnt, req, ch, split);
      StepNumber(F.CmdLength(mArgNum), mArgLen, req, ch, split);
      result := Normal;
      req := req + [ch];
      match mState
      case CmdTag =>
        if ch == DOLLAR { mArgLen, mState := 0, CmdLen; } else { result := ParseError; }
      case CmdLen =>
        if IsDigit(ch) {
          mArgLen := mArgLen * 10 + (ch - ZERO);
        } else if ch == CR {
          if mArgLen > 0 { mState := CmdLenLF; } else { result := ParseError; }
        } else {
          result := ParseError;
        }
      case CmdLenLF =>
        if ch == LF {
          mArgBodyCnt, mCmd := 0, [];
          if mArgLen < F.MAX_CMD_LEN { mState := CmdBody; } else { result := Other; }
        } else {
          result := ParseError;
        }
    }

    /** The name. */
    method InName(ch: byte, split: bool) returns (result: Result)
      requires Valid() && mState == CmdBody
      modifies this`req, this`mState, this`mArgBodyCnt, this`mCmd
      ensures Steps(ch, split, result) && result != Partial && result != Complete && req == old(req) + [ch] && |req| > 1
    {
      result := Normal;
      req := req + [ch];
      if mArgBodyCnt == mArgLen {
        if ch == CR { mState := CmdBodyLF; } else { result := ParseError; }
      } else {
        mCmd, mArgBodyCnt := mCmd + [LowerByte(ch)], mArgBodyCnt + 1;
      }
    }

    /** The end of the name, and what parseCmd makes of it. */
    method EndName(ch: byte, split: bool) returns (result: Result)
      requires Valid() && mState == CmdBodyLF
      modifies this`req, this`mState, this`mCommand, this`mArgCnt
      ensures Steps(ch, split, result) && result != Partial && req == old(req) + [ch] && |req| > 1
    {
      hide F.Find, F.GoodCount;
      result := Normal;
      req := req + [ch];
      if ch == LF {
        var c := F.Find(mCmd);
        if c == None || !F.GoodCount(c.value, mArgNum) { return Other; }
        mCommand := c.value;
        mArgCnt := mArgCnt + 1;
        if mArgCnt == mArgNum {
          mState, result := Finished, Complete;
        } else {
          mState := SArgTag;
        }
      } else {
        result := ParseError;
      }
    }

    /** The line with an argument's length. */
    method ArgHead(ch: byte, here: Place, split: bool) returns (result: Result)
      requires Valid() && mState in {SArgTag, SArgLen, SArgLenLF}
      modifies this`req, this`reqBegin, this`mState, this`mArgLen, this`mArgBodyCnt
      ensures Steps(ch, split, result) && result != Partial && result != Complete
      ensures result == Normal ==>
                reqBegin == (if |req| == 1 then here else old(reqBegin)) && (req == [ch] || req == old(req) + [ch])
    {
      hide F.Step, F.IsSplit;
      StepTag(mArgNum, mCommand, mArgCnt, req, ch, split);
      StepNumber(F.ArgLength(mCommand, mArgNum, mArgCnt), mArgLen, req, ch, split);
      result := Normal;
      if mState == SArgTag {
        mArgLen := 0;
        if ch == DOLLAR {
          mState := SArgLen;
          req := req + [ch];
          if F.IsSplit(mCommand, mArgNum, mArgCnt, split) {
            reqBegin := here;
            req := [ch];
          }
        } else {
          result := ParseError;
        }
        return;
      }
      req := req + [ch];
      if mState == SArgLen {
        if IsDigit(ch) {
          mArgLen := mArgLen * 10 + (ch - ZERO);
        } else if ch == CR {
          mState := SArgLenLF;
        } else {
          result := ParseError;
        }
      } else {
        mArgBodyCnt := 0;
        if ch == LF { mState := SArgBody; } else { result := ParseError; }
      }
    }

    /** The end of an argument, perhaps of a piece, perhaps of the command. */
    method ArgEnd(ch: byte, split: bool) returns (result: Result)
      requires Valid() && mState == SArgBodyLF
      modifies this`req, this`mState, this`mArgCnt
      ensures Steps(ch, split, result) && req == old(req) + [ch] && |req| > 1
    {
      hide F.Step, F.IsSplit;
      StepArgBodyLF(mCommand, mArgNum, mArgCnt, req, ch, split);
      req := req + [ch];
      if ch != LF { return ParseError; }
      mArgCnt := mArgCnt + 1;
      if mArgCnt == mArgNum {
        mState, result := Finished, Complete;
      } else {
        mState := SArgTag;
        result := if F.IsSplit(mCommand, mArgNum, mArgCnt, split) then Partial else Normal;
      }
    }

    method Byte(ch: byte, here: Place, split: bool) returns (result: Result)
      requires Valid() && mState != SArgBody && mState != Finished
      modifies this`req, this`reqBegin, this`mState, this`mArgNum, this`mArgCnt, this`mArgLen, this`mArgBodyCnt
      modifies this`mCmd, this`mCommand
      ensures Steps(ch, split, result)
      ensures result != ParseError && result != Other ==>
                && reqBegin == (if |req| == 1 then here else old(reqBegin)) && (req == [ch] || req == old(req) + [ch])
    {
      hide F.Step;
      if mState in {Idle, ArgNum, ArgNumLF} {
        result := First(ch, here, split);
      } else if mState in {CmdTag, CmdLen, CmdLenLF} {
        result := NameHead(ch, split);
      } else if mState == CmdBody {
        result := InName(ch, split);
      } else if mState == CmdBodyLF {
        result := EndName(ch, split);
      } else if mState in {SArgTag, SArgLen, SArgLenLF} {
        result := ArgHead(ch, here, split);
      } else {
        result := ArgEnd(ch, split);
      }
    }

    /** SArgBody, when the buffer has the rest of the argument and the return behind it. */
    method RestOfBody(buf: seq<byte>, pos: nat, id: nat, isKey: bool, ghost split: bool, ghost at: nat)
      returns (next: nat, ok: bool)
      requires Valid() && mState == SArgBody && pos < |buf| && K.SeenBefore(key, at)
      requires mArgBodyCnt + (|buf| - pos) > mArgLen && isKey == K.IsKey(mCommand, mArgCnt, split)
      modifies this`req, this`mState, this`key, this`keyBegin, this`keyEnd
      ensures pos < next <= |buf|
      ensures ok ==>
                && Valid() && mState != Finished
                && TookQuietly(old(Snapshot()), Snapshot(), buf, pos, next, id, split, at)
      ensures !ok ==> F.Cuts(old(View()), buf[pos..next], split).state.phase == F.Failed
    {
      hide *;
      ghost var s := Snapshot();
      InBodyIs();
      next := pos + (mArgLen - mArgBodyCnt);
      if buf[next] != CR {
        BodyFails(s, buf, pos, next, split);
        return next + 1, false;
      }
      BodyEnds(s, buf, pos, next, id, split, at);
      if mArgBodyCnt == 0 && isKey {
        keyBegin := Some(Place(id, pos));
        key := key.(from := Some(at));
      }
      mState := SArgBodyLF;
      if isKey {
        keyEnd := Some(Place(id, next));
        key := key.(to := Some(at + (next - pos)));
      }
      req := req + buf[pos..next + 1];
      AfterBodyIs(s, buf[pos..next + 1], isKey, id, pos, next, at);
      return next + 1, true;
    }

    lemma AfterBodyIs(s: Snap, bytes: seq<byte>, isKey: bool, id: nat, pos: nat, next: nat, at: nat)
      requires mState == SArgBodyLF && mArgLen >= 0 && pos <= next && s.req != [] && req == s.req + bytes
      requires s.state == F.State(F.ArgBody(mCommand, mArgNum, mArgCnt, mArgLen, mArgBodyCnt), s.req)
      requires reqBegin == s.reqBegin
      requires keyBegin == if mArgBodyCnt == 0 && isKey then Some(Place(id, pos)) else s.keyBegin
      requires keyEnd == if isKey then Some(Place(id, next)) else s.keyEnd
      requires key.from == if mArgBodyCnt == 0 && isKey then Some(at) else s.key.from
      requires key.to == if isKey then Some(at + (next - pos)) else s.key.to
      ensures Valid() && Snapshot() == AfterBody(s, bytes, isKey, id, pos, next, at)
    {
    }

    lemma InBodyIs()
      requires Valid() && mState == SArgBody
      ensures View() == F.State(F.ArgBody(mCommand, mArgNum, mArgCnt, mArgLen, mArgBodyCnt), req) && req != []
      ensures 0 <= mArgBodyCnt <= mArgLen && Snapshot().state == View()
      ensures Snapshot() == Snap(View(), req, key, reqBegin, keyBegin, keyEnd)
    {
    }

    /** SArgBody, when the argument or its return goes on behind the buffer. */
    method PartOfBody(buf: seq<byte>, pos: nat, id: nat, isKey: bool, ghost split: bool, ghost at: nat)
      requires Valid() && mState == SArgBody && pos < |buf| && K.SeenBefore(key, at)
      requires mArgBodyCnt + (|buf| - pos) <= mArgLen && isKey == K.IsKey(mCommand, mArgCnt, split)
      modifies this`req, this`mArgBodyCnt, this`key, this`keyBegin
      ensures Valid() && TookQuietly(old(Snapshot()), Snapshot(), buf, pos, |buf|, id, split, at)
    {
      hide F.Cuts, F.Step, K.Keyed, K.IsKey, TookQuietly;
      BodyGoesOn(Snapshot(), buf, pos, id, split, at);
      if mArgBodyCnt == 0 && isKey {
        keyBegin := Some(Place(id, pos));
        key := key.(from := Some(at));
      }
      mArgBodyCnt := mArgBodyCnt + (|buf| - pos);
      req := req + buf[pos..|buf|];
    }

    /** SArgBody: takes the rest of the argument and the return, or all that the buffer has. */
    method BodyBytes(buf: seq<byte>, pos: nat, id: nat, split: bool, ghost at: nat) returns (next: nat, ok: bool)
      requires Valid() && mState == SArgBody && pos < |buf| && K.SeenBefore(key, at)
      modifies this`req, this`mState, this`mArgBodyCnt, this`key, this`keyBegin, this`keyEnd
      ensures pos < next <= |buf|
      ensures ok ==>
                && Valid() && mState != Finished
                && TookQuietly(old(Snapshot()), Snapshot(), buf, pos, next, id, split, at)
      ensures !ok ==> F.Cuts(old(View()), buf[pos..next], split).state.phase == F.Failed
    {
      hide F.Cuts, K.IsKey, TookQuietly;
      var isKey := K.IsKey(mCommand, mArgCnt, split);
      if mArgBodyCnt + (|buf| - pos) > mArgLen {
        next, ok := RestOfBody(buf, pos, id, isKey, split, at);
      } else {
        PartOfBody(buf, pos, id, isKey, split, at);
        next, ok := |buf|, true;
      }
    }

    lemma NotInBody()
      requires mState != SArgBody
      ensures !View().phase.ArgBody?
    {
    }

    /** parse: takes bytes of buffer number `id` from `pos0` on, until a piece or a command ends,
        or the buffer. */
    method Parse(buf: seq<byte>, pos0: nat, id: nat, split: bool, ghost at: nat) returns (result: Result, pos: nat)
      requires Valid() && mState != Finished && pos0 <= |buf| && K.SeenBefore(key, at)
      modifies this
      ensures pos0 <= pos <= |buf| && (result == Partial || result == Complete ==> pos0 < pos)
      ensures result == Partial || result == Complete ==> reqEnd == Place(id, pos)
      ensures var s := old(Snapshot());
              match result
              case Normal =>
                && Valid() && mState != Finished && pos == |buf|
                && TookQuietly(s, Snapshot(), buf, pos0, pos, id, split, at)
              case Partial =>
                && Valid() && mState != Finished && mState != Idle
                && Took(s, Snapshot(), F.Cutting([F.Piece(req, false, mCommand, mArgNum)], View()),
                        K.Keying([key], key), buf, pos0, pos, id, split, at)
              case Complete =>
                && Valid() && mState == Finished
                && Took(s, Snapshot(), F.Cutting([F.Piece(req, true, mCommand, mArgNum)], View()),
                        K.Keying([key], K.NO_KEY), buf, pos0, pos, id, split, at)
              case ParseError => F.Cuts(s.state, buf[pos0..pos], split).state.phase == F.Failed
              case Other => F.Cuts(s.state, buf[pos0..pos], split).state.phase == F.OtherCommand
    {
      hide F.Step, F.Cuts, K.Keyed, K.KeyStep, Valid, View, Took, TookQuietly, EndsWith;
      ghost var s := Snapshot();
      pos := pos0;
      TookNothing(s, buf, pos0, id, split, at);
      while pos < |buf|
        invariant pos0 <= pos <= |buf| && Valid() && mState != Finished
        invariant TookQuietly(s, Snapshot(), buf, pos0, pos, id, split, at)
      {
        ghost var m, from := Snapshot(), pos;
        QuietRun(s, m, buf, pos0, pos, id, split, at);
        if mState == SArgBody {
          var ok;
          pos, ok := BodyBytes(buf, pos, id, split, at + (pos - pos0));
          if !ok {
            MoreRun(s.state, m.state, buf, pos0, from, pos, split);
            return ParseError, pos;
          }
          QuietMore(s, m, Snapshot(), buf, pos0, from, pos, id, split, at);
        } else {
          NotInBody();
          result := Byte(buf[pos], Place(id, pos), split);
          pos := pos + 1;
          if result == ParseError || result == Other {
            ByteRun(m.state, buf, from, split);
            MoreRun(s.state, m.state, buf, pos0, from, pos, split);
            return;
          }
          ByteTook(m, Snapshot(), buf, from, id, split, at + (from - pos0));
          TookByte(s, m, Snapshot(), buf, pos0, from, id, split, at);
          if result == Partial || result == Complete {
            reqEnd := Place(id, pos);
            return;
          }
        }
      }
      return Normal, pos;
    }
  }

  lemma QuietRun(s: Snap, m: Snap, buf: seq<byte>, a: nat, b: nat, id: nat, split: bool, at: nat)
    requires TookQuietly(s, m, buf, a, b, id, split, at)
    ensures a <= b <= |buf| && F.Cuts(s.state, buf[a..b], split) == F.Cutting([], m.state)
    ensures K.SeenBefore(m.key, at + (b - a))
  {
    hide F.Cuts, K.Keyed;
  }

  lemma QuietMore(s: Snap, m: Snap, t: Snap, buf: seq<byte>, a: nat, b: nat, c: nat, id: nat, split: bool, at: nat)
    requires TookQuietly(s, m, buf, a, b, id, split, at) && a <= b < c
    requires TookQuietly(m, t, buf, b, c, id, split, at + (b - a))
    ensures TookQuietly(s, t, buf, a, c, id, split, at)
  {
    hide Took;
    TookMore(s, m, t, F.Cutting([], t.state), K.Keying([], t.key), buf, a, b, c, id, split, at);
  }

  /** What comes out of one byte. */
  function ByteCut(s: Snap, ch: byte, split: bool): F.Cutting
  {
    var t := F.Step(s.state, ch, split);
    F.Cutting(F.Out(t.out), t.state)
  }

  function ByteKey(s: Snap, ch: byte, split: bool): K.Keying
  {
    var t := F.Step(s.state, ch, split);
    K.Keying(if t.out.Some? then [s.key] else [], if t.out.Some? && t.out.value.last then K.NO_KEY else s.key)
  }

  lemma ByteTook(s: Snap, t: Snap, buf: seq<byte>, pos: nat, id: nat, split: bool, at: nat)
    requires pos < |buf| && !s.state.phase.ArgBody? && K.SeenBefore(s.key, at)
    requires t.key == s.key && t.keyBegin == s.keyBegin && t.keyEnd == s.keyEnd
    requires t.req == [buf[pos]] || (t.req == s.req + [buf[pos]])
    requires t.reqBegin == if |t.req| == 1 then Place(id, pos) else s.reqBegin
    ensures Took(s, t, ByteCut(s, buf[pos], split), ByteKey(s, buf[pos], split), buf, pos, pos + 1, id, split, at)
  {
    hide F.Step, F.Cuts, K.Keyed;
    ByteRun(s.state, buf, pos, split);
    ByteKeys(at, s.key, s.state, buf, pos, split);
    assert buf[pos..pos + 1] == [buf[pos]];
    assert (s.req + [buf[pos]])[|s.req|..] == [buf[pos]];
  }

  lemma TookByte(s: Snap, m: Snap, t: Snap, buf: seq<byte>, a: nat, b: nat, id: nat, split: bool, at: nat)
    requires TookQuietly(s, m, buf, a, b, id, split, at) && a <= b < |buf|
    requires Took(m, t, ByteCut(m, buf[b], split), ByteKey(m, buf[b], split), buf, b, b + 1, id, split, at + (b - a))
    ensures Took(s, t, ByteCut(m, buf[b], split), ByteKey(m, buf[b], split), buf, a, b + 1, id, split, at)
    ensures var r := F.Step(m.state, buf[b], split);
            r.out == None && t.state == r.state && t.key == m.key ==> TookQuietly(s, t, buf, a, b + 1, id, split, at)
  {
    hide Took, F.Step;
    QuietRun(s, m, buf, a, b, id, split, at);
    TookMore(s, m, t, ByteCut(m, buf[b], split), ByteKey(m, buf[b], split), buf, a, b, b + 1, id, split, at);
  }

  /** The parser after bytes of an argument's body. */
  function InBody(s: Snap, p: F.Phase, bytes: seq<byte>, starts: bool, id: nat, pos: nat, at: nat): Snap
  {
    var req := s.req + bytes;
    s.(state := F.State(p, req), req := req, key := if starts then s.key.(from := Some(at)) else s.key,
       keyBegin := if starts then Some(Place(id, pos)) else s.keyBegin)
  }

  lemma BodyGoesOn(s: Snap, buf: seq<byte>, pos: nat, id: nat, split: bool, at: nat)
    requires s.state.phase.ArgBody? && s.state.req == s.req != [] && pos < |buf| && K.SeenBefore(s.key, at)
    requires 0 <= s.state.phase.cnt && s.state.phase.cnt + (|buf| - pos) <= s.state.phase.len
    ensures var p := s.state.phase;
            var starts := p.cnt == 0 && K.IsKey(p.cmd, p.i, split);
            TookQuietly(s, InBody(s, p.(cnt := p.cnt + (|buf| - pos)), buf[pos..|buf|], starts, id, pos, at),
                        buf, pos, |buf|, id, split, at)
  {
    hide F.Cuts, K.Keyed, K.IsKey;
    var b := buf[pos..|buf|];
    BodyRun(s.state, buf, pos, |buf|, split);
    K.KeyOfBody(at, s.key, s.state, b, split);
    EndsAll(s.req + b);
  }

  lemma EndsAll(a: seq<byte>)
    ensures EndsWith(a, a)
  {
  }

  /** The parser after the end of an argument's body. */
  function AfterBody(s: Snap, bytes: seq<byte>, isKey: bool, id: nat, pos: nat, next: nat, at: nat): Snap
    requires s.state.phase.ArgBody? && pos <= next
  {
    var p := s.state.phase;
    var m := InBody(s, F.ArgBodyLF(p.cmd, p.n, p.i), bytes, p.cnt == 0 && isKey, id, pos, at);
    if isKey then m.(key := m.key.(to := Some(at + (next - pos))), keyEnd := Some(Place(id, next))) else m
  }

  lemma BodyEnds(s: Snap, buf: seq<byte>, pos: nat, next: nat, id: nat, split: bool, at: nat)
    requires s.state.phase.ArgBody? && s.state.req == s.req != [] && pos <= next < |buf| && K.SeenBefore(s.key, at)
    requires 0 <= s.state.phase.cnt && s.state.phase.cnt + (next - pos) == s.state.phase.len && buf[next] == CR
    ensures var isKey := K.IsKey(s.state.phase.cmd, s.state.phase.i, split);
            var t := AfterBody(s, buf[pos..next + 1], isKey, id, pos, next, at);
            TookQuietly(s, t, buf, pos, next + 1, id, split, at)
  {
    hide F.Cuts, K.Keyed, K.IsKey;
    var p, b := s.state.phase, buf[pos..next];
    BodyRun(s.state, buf, pos, next, split);
    LastRun(s.state, F.State(p.(cnt := p.len), s.req + b), buf, pos, next, split);
    K.KeyOfArg(at, s.key, s.state, b, split);
    CutNext(buf, pos, next, s.req);
    EndsAll(s.req + buf[pos..next + 1]);
  }

  lemma BodyFails(s: Snap, buf: seq<byte>, pos: nat, next: nat, split: bool)
    requires s.state.phase.ArgBody? && s.state.req == s.req && pos <= next < |buf| && buf[next] != CR
    requires 0 <= s.state.phase.cnt && s.state.phase.cnt + (next - pos) == s.state.phase.len
    ensures F.Cuts(s.state, buf[pos..next + 1], split).state.phase == F.Failed
  {
    hide F.Cuts;
    var p := s.state.phase;
    BodyRun(s.state, buf, pos, next, split);
    LastRun(s.state, F.State(p.(cnt := p.len), s.req + buf[pos..next]), buf, pos, next, split);
  }

  lemma StepNumber(use: F.Use, len: int, req: seq<byte>, ch: byte, split: bool)
    ensures F.Step(F.State(F.Number(use, len), req), ch, split)
         == F.Go(if IsDigit(ch) then F.Number(use, len * 10 + (ch - ZERO))
                 else if ch == CR then F.EndNumber(use, len) else F.Failed, req + [ch])
    ensures F.Step(F.State(F.NumberLF(use, len), req), ch, split)
            == F.Go(if ch == LF then F.EndNumberLF(use, len) else F.Failed, req + [ch])
  {
  }

  lemma StepTag(n: int, c: F.Cmd, i: int, req: seq<byte>, ch: byte, split: bool)
    ensures F.Step(F.State(F.CmdTag(n), req), ch, split)
         == F.Go(if ch == DOLLAR then F.Number(F.CmdLength(n), 0) else F.Failed, req + [ch])
    ensures F.Step(F.State(F.ArgTag(c, n, i), req), ch, split)
         == if ch == DOLLAR then
              F.Go(F.Number(F.ArgLength(c, n, i), 0), if F.IsSplit(c, n, i, split) then [ch] else req + [ch])
            else F.Go(F.Failed, req + [ch])
  {
    hide F.IsSplit;
  }

  lemma StepArgBodyLF(c: F.Cmd, n: int, i: int, req: seq<byte>, ch: byte, split: bool)
    ensures F.Step(F.State(F.ArgBodyLF(c, n, i), req), ch, split)
         == if ch == LF then F.EndArg(c, n, i, req + [ch], split) else F.Go(F.Failed, req + [ch])
  {
  }

  lemma NoBytes(s: F.State, buf: seq<byte>, pos: nat, split: bool)
    requires pos <= |buf|
    ensures F.Cuts(s, buf[pos..pos], split) == F.Cutting([], s)
  {
    assert buf[pos..pos] == [];
  }

  lemma ByteRun(s: F.State, buf: seq<byte>, pos: nat, split: bool)
    requires pos < |buf|
    ensures var t := F.Step(s, buf[pos], split); F.Cuts(s, buf[pos..pos + 1], split) == F.Cutting(F.Out(t.out), t.state)
  {
    F.LastByte(s, buf[pos], split);
    assert buf[pos..pos + 1] == [buf[pos]];
  }

  lemma MoreRun(s: F.State, m: F.State, buf: seq<byte>, a: nat, b: nat, c: nat, split: bool)
    requires a <= b <= c <= |buf| && F.Cuts(s, buf[a..b], split) == F.Cutting([], m)
    ensures F.Cuts(s, buf[a..c], split) == F.Cuts(m, buf[b..c], split)
  {
    hide F.Cuts;
    F.CutsAppend(s, buf[a..b], buf[b..c], split);
    assert buf[a..b] + buf[b..c] == buf[a..c];
    F.PiecesNone(F.Cuts(m, buf[b..c], split).pieces);
  }

  lemma ByteKeys(at: nat, k: K.Key, s: F.State, buf: seq<byte>, pos: nat, split: bool)
    requires pos < |buf| && !s.phase.ArgBody?
    ensures var t := F.Step(s, buf[pos], split);
            K.Keyed(at, k, s, buf[pos..pos + 1], split)
            == K.Keying(if t.out.Some? then [k] else [], if t.out.Some? && t.out.value.last then K.NO_KEY else k)
  {
    hide F.Step, K.Keyed;
    K.KeyedOne(at, k, s, buf[pos], split);
    assert buf[pos..pos + 1] == [buf[pos]];
  }

  lemma MoreKeys(at: nat, k0: K.Key, k: K.Key, s: F.State, m: F.State, buf: seq<byte>, a: nat, b: nat, c: nat,
                 split: bool)
    requires a <= b <= c <= |buf| && F.Cuts(s, buf[a..b], split) == F.Cutting([], m)
    requires K.Keyed(at, k0, s, buf[a..b], split) == K.Keying([], k)
    ensures K.Keyed(at, k0, s, buf[a..c], split) == K.Keyed(at + (b - a), k, m, buf[b..c], split)
  {
    hide F.Cuts, K.Keyed;
    K.KeyedAppend(at, k0, s, buf[a..b], buf[b..c], split);
    assert buf[a..b] + buf[b..c] == buf[a..c];
    K.KeysAssoc([], [], K.Keyed(at + (b - a), k, m, buf[b..c], split).keys);
  }

  lemma CutNext(buf: seq<byte>, pos: nat, next: nat, req: seq<byte>)
    requires pos <= next < |buf|
    ensures buf[pos..next + 1] == buf[pos..next] + [buf[next]]
    ensures req + buf[pos..next] + [buf[next]] == req + buf[pos..next + 1]
  {
  }

  lemma BodyRun(s: F.State, buf: seq<byte>, pos: nat, next: nat, split: bool)
    requires s.phase.ArgBody? && pos <= next <= |buf| && s.phase.cnt + (next - pos) <= s.phase.len
    ensures F.Cuts(s, buf[pos..next], split)
            == F.Cutting([], F.State(s.phase.(cnt := s.phase.cnt + (next - pos)), s.req + buf[pos..next]))
  {
    F.ReadBody(s.phase.cmd, s.phase.n, s.phase.i, s.phase.len, s.phase.cnt, buf[pos..next], s.req, split);
  }

  lemma LastRun(s: F.State, m: F.State, buf: seq<byte>, pos: nat, next: nat, split: bool)
    requires pos <= next < |buf| && F.Cuts(s, buf[pos..next], split) == F.Cutting([], m)
    ensures var t := F.Step(m, buf[next], split);
            F.Cuts(s, buf[pos..next + 1], split) == F.Cutting(F.Out(t.out), t.state)
  {
    hide F.Cuts, F.Step;
    MoreRun(s, m, buf, pos, next, next + 1, split);
    ByteRun(m, buf, next, split);
  }

  // ----- the queue of requests ---------------------------------------------------------------------

  /** A request: the bytes sent to the server are head and body. A piece of a split command
      knows its leader, by its place in the queue; the leader counts the pieces. */
  datatype Request = Request(head: seq<byte>, body: seq<byte>, leader: Option<nat>, followers: nat, cmd: F.Cmd)

  function Sent(r: Request): seq<byte> { r.head + r.body }

  /** Request::set */
  function Set(p: F.Piece, leader: Option<nat>, self: nat): Request
  {
    if leader == None then Request([], p.req, None, 0, p.cmd) else
    var n := if F.ModeOf(p.cmd) == F.MultiKeyVal then (p.n - 1) / 2 else p.n - 1;
    Request(F.FixedHead(p.cmd), p.req, leader, if leader.value == self && n >= 0 then n else 0, p.cmd)
  }

  datatype Queue = Queue(requests: seq<Request>, leader: Option<nat>)

  /** What a result of the parser adds to the queue. */
  function Attach(q: Queue, p: F.Piece): Queue
  {
    var self: nat := |q.requests|;
    var leader := if q.leader == None && !p.last then Some(self) else q.leader;
    Queue(q.requests + [Set(p, leader, self)], if p.last then None else leader)
  }

  function AttachAll(q: Queue, ps: seq<F.Piece>): Queue
    decreases |ps|
  {
    if ps == [] then q else AttachAll(Attach(q, ps[0]), ps[1..])
  }

  lemma {:induction false} AttachMore(q: Queue, a: seq<F.Piece>, b: seq<F.Piece>)
    ensures AttachAll(q, a + b) == AttachAll(AttachAll(q, a), b)
    decreases |a|
  {
    if a == [] {
      assert a + b == b;
    } else {
      assert (a + b)[1..] == a[1..] + b;
      AttachMore(Attach(q, a[0]), a[1..], b);
    }
  }

  /** A request as it is queued: where its bytes are, and its key. */
  datatype Entry = Entry(head: seq<byte>, begin: Place, end: Place, keyBegin: Option<Place>, keyEnd: Option<Place>,
                         leader: Option<nat>, followers: nat, cmd: F.Cmd)

  function AsRequest(bufs: seq<seq<byte>>, e: Entry): Request
  {
    Request(e.head, Between(bufs, e.begin, e.end), e.leader, e.followers, e.cmd)
  }

  function AsRequests(bufs: seq<seq<byte>>, es: seq<Entry>): (rs: seq<Request>)
    ensures |rs| == |es| && forall i :: 0 <= i < |es| ==> rs[i] == AsRequest(bufs, es[i])
  {
    if es == [] then [] else AsRequests(bufs, es[..|es| - 1]) + [AsRequest(bufs, es[|es| - 1])]
  }

  /** The bytes by which a request is routed. */
  function KeyOf(bufs: seq<seq<byte>>, e: Entry): seq<byte>
  {
    if e.keyBegin.Some? && e.keyEnd.Some? then Between(bufs, e.keyBegin.value, e.keyEnd.value) else []
  }

  function KeysOf(bufs: seq<seq<byte>>, es: seq<Entry>): (ks: seq<seq<byte>>)
    ensures |ks| == |es| && forall i :: 0 <= i < |es| ==> ks[i] == KeyOf(bufs, es[i])
  {
    if es == [] then [] else KeysOf(bufs, es[..|es| - 1]) + [KeyOf(bufs, es[|es| - 1])]
  }

  lemma EntryMore(bufs: seq<seq<byte>>, es: seq<Entry>, e: Entry)
    ensures AsRequests(bufs, es + [e]) == AsRequests(bufs, es) + [AsRequest(bufs, e)]
    ensures KeysOf(bufs, es + [e]) == KeysOf(bufs, es) + [KeyOf(bufs, e)]
  {
    hide AsRequest, KeyOf;
    assert (es + [e])[..|es|] == es;
  }

  ghost predicate Held(bufs: seq<seq<byte>>, e: Entry)
  {
    && Inside(bufs, e.begin) && Inside(bufs, e.end)
    && (e.keyBegin.Some? ==> Inside(bufs, e.keyBegin.value)) && (e.keyEnd.Some? ==> Inside(bufs, e.keyEnd.value))
  }

  lemma HeldGrows(bufs: seq<seq<byte>>, more: seq<seq<byte>>, es: seq<Entry>)
    requires Grows(bufs, more) && forall i :: 0 <= i < |es| ==> Held(bufs, es[i])
    ensures forall i :: 0 <= i < |es| ==> Held(more, es[i])
    ensures AsRequests(more, es) == AsRequests(bufs, es) && KeysOf(more, es) == KeysOf(bufs, es)
  {
    hide Grows, Between, Inside;
    forall i | 0 <= i < |es|
      ensures Held(more, es[i]) && AsRequest(more, es[i]) == AsRequest(bufs, es[i])
      ensures KeyOf(more, es[i]) == KeyOf(bufs, es[i])
    {
      var e := es[i];
      assert Held(bufs, e);
      BetweenGrows(bufs, more, e.begin, e.end);
      if e.keyBegin.Some? { BetweenGrows(bufs, more, e.keyBegin.value, e.keyBegin.value); }
      if e.keyEnd.Some? { BetweenGrows(bufs, more, e.keyEnd.value, e.keyEnd.value); }
      if e.keyBegin.Some? && e.keyEnd.Some? { BetweenGrows(bufs, more, e.keyBegin.value, e.keyEnd.value); }
    }
  }

  /** An offset is that of the place, if either is there. */
  ghost predicate IsAt(bufs: seq<seq<byte>>, off: Option<nat>, place: Option<Place>)
  {
    && (off.Some? <==> place.Some?)
    && (off.Some? ==> Inside(bufs, place.value) && Offset(bufs, place.value) == off.value)
  }

  /** The parser has taken the bytes x, and the buffers hold at least these. */
  ghost predicate Follows(bufs: seq<seq<byte>>, p: Snap, x: seq<byte>)
  {
    && EndsWith(x, p.req) && K.SeenBefore(p.key, |x|)
    && (p.req != [] ==> Inside(bufs, p.reqBegin) && Offset(bufs, p.reqBegin) == |x| - |p.req|)
    && IsAt(bufs, p.key.from, p.keyBegin) && IsAt(bufs, p.key.to, p.keyEnd)
  }

  lemma FollowsGrows(bufs: seq<seq<byte>>, more: seq<seq<byte>>, p: Snap, x: seq<byte>)
    requires Follows(bufs, p, x) && Grows(bufs, more)
    ensures Follows(more, p, x)
  {
    hide Grows, Between, Inside, EndsWith;
    if p.req != [] { BetweenGrows(bufs, more, p.reqBegin, p.reqBegin); }
    if p.keyBegin.Some? { BetweenGrows(bufs, more, p.keyBegin.value, p.keyBegin.value); }
    if p.keyEnd.Some? { BetweenGrows(bufs, more, p.keyEnd.value, p.keyEnd.value); }
  }

  /** The last buffer from `a` on is what follows x. */
  ghost predicate LastFrom(bufs: seq<seq<byte>>, x: seq<byte>, a: nat)
  {
    && bufs != [] && a <= |bufs[|bufs| - 1]| && |x| == Base(bufs, |bufs| - 1) + a
    && x + bufs[|bufs| - 1][a..] == Flat(bufs)
  }

  lemma LastIs(bufs: seq<seq<byte>>, x: seq<byte>, a: nat)
    ensures LastFrom(bufs, x, a) <==>
              && bufs != [] && a <= |bufs[|bufs| - 1]| && |x| == Base(bufs, |bufs| - 1) + a
              && x + bufs[|bufs| - 1][a..] == Flat(bufs)
  {
  }

  lemma LastOn(bufs: seq<seq<byte>>, x: seq<byte>, a: nat, b: nat)
    requires LastFrom(bufs, x, a) && a <= b <= |bufs[|bufs| - 1]|
    ensures LastFrom(bufs, x + bufs[|bufs| - 1][a..b], b) && Inside(bufs, Place(|bufs| - 1, b))
    ensures Offset(bufs, Place(|bufs| - 1, b)) == |x + bufs[|bufs| - 1][a..b]|
    ensures x + bufs[|bufs| - 1][a..b] <= Flat(bufs)
  {
    hide Flat, Base;
    var last := bufs[|bufs| - 1];
    assert last[a..] == last[a..b] + last[b..];
    assert x + (last[a..b] + last[b..]) == x + last[a..b] + last[b..];
  }

  /** It goes on following. */
  lemma FollowsOn(bufs: seq<seq<byte>>, s: Snap, t: Snap, cut: F.Cutting, keying: K.Keying, x: seq<byte>, a: nat,
                  b: nat, split: bool)
    requires LastFrom(bufs, x, a) && Follows(bufs, s, x)
    requires Took(s, t, cut, keying, bufs[|bufs| - 1], a, b, |bufs| - 1, split, |x|)
    ensures Follows(bufs, t, x + bufs[|bufs| - 1][a..b])
  {
    hide Flat, Base, F.Cuts, K.Keyed, EndsWith;
    var id, bytes := |bufs| - 1, bufs[|bufs| - 1][a..b];
    LastOn(bufs, x, a, b);
    assert |x + bytes| == |x| + (b - a);
    FollowingEnds(x, s.req, bytes, t.req);
    if t.req != [] && |t.req| <= |bytes| { LastOn(bufs, x, a, b - |t.req|); }
    OffsetOn(bufs, x, a, b, s.key.from, s.keyBegin, t.key.from, t.keyBegin);
    OffsetOn(bufs, x, a, b, s.key.to, s.keyEnd, t.key.to, t.keyEnd);
  }

  lemma FollowingEnds(x: seq<byte>, was: seq<byte>, bytes: seq<byte>, req: seq<byte>)
    requires EndsWith(x, was) && EndsWith(was + bytes, req)
    ensures EndsWith(x + bytes, req)
  {
    assert (x + bytes)[|x| - |was|..] == was + bytes;
    assert (x + bytes)[|x + bytes| - |req|..] == (x + bytes)[|x| - |was|..][|was + bytes| - |req|..];
  }

  lemma OffsetOn(bufs: seq<seq<byte>>, x: seq<byte>, a: nat, b: nat, was: Option<nat>, placeWas: Option<Place>,
                 off: Option<nat>, place: Option<Place>)
    requires LastFrom(bufs, x, a) && a <= b <= |bufs[|bufs| - 1]| && IsAt(bufs, was, placeWas)
    requires Seen(was, placeWas, off, place, a, |bufs| - 1, |x|)
    requires (was.Some? ==> was.value < |x|) && (off.Some? ==> off.value < |x| + (b - a))
    ensures IsAt(bufs, off, place)
  {
    hide Flat, Base;
    if off.Some? && off.value >= |x| { LastOn(bufs, x, a, a + (off.value - |x|)); }
  }

  /** What has come out: these are its bytes and its key. */
  lemma OutBytes(bufs: seq<seq<byte>>, t: Snap, x: seq<byte>, end: Place)
    requires Follows(bufs, t, x) && t.req != [] && x <= Flat(bufs)
    requires Inside(bufs, end) && Offset(bufs, end) == |x|
    ensures Between(bufs, t.reqBegin, end) == t.req
    ensures forall e: Entry :: e.keyBegin == t.keyBegin && e.keyEnd == t.keyEnd ==>
                                 KeyOf(bufs, e) == K.KeyBytes(Flat(bufs), t.key)
  {
    hide Flat, Base, Offset;
    assert Flat(bufs)[|x| - |t.req|..|x|] == x[|x| - |t.req|..];
  }

  function KeyTexts(stream: seq<byte>, keys: seq<K.Key>): (ks: seq<seq<byte>>)
    ensures |ks| == |keys| && forall i :: 0 <= i < |keys| ==> ks[i] == K.KeyBytes(stream, keys[i])
  {
    seq(|keys|, i requires 0 <= i < |keys| => K.KeyBytes(stream, keys[i]))
  }

  lemma TextsAppend(stream: seq<byte>, a: seq<K.Key>, b: seq<K.Key>)
    ensures KeyTexts(stream, a + b) == KeyTexts(stream, a) + KeyTexts(stream, b)
  {
  }

  class ClientInput {
    const parser: Parser
    var bufs: seq<seq<byte>>
    var requests: seq<Entry>
    var reqLeader: Option<nat>

    ghost predicate Valid()
      reads this, parser
    {
      At(Flat(bufs))
    }

    /** The bytes x have been parsed. */
    ghost predicate At(x: seq<byte>)
      reads this, parser
    {
      && parser.Valid() && parser.mState != Finished && Follows(bufs, parser.Snapshot(), x)
      && forall i :: 0 <= i < |requests| ==> Held(bufs, requests[i])
    }

    ghost function View(): Queue
      reads this
    {
      Queue(AsRequests(bufs, requests), reqLeader)
    }

    ghost function Keys(): seq<seq<byte>>
      reads this
    {
      KeysOf(bufs, requests)
    }

    /** A connection of which nothing has been read. */
    ghost predicate New()
      reads this, parser
    {
      Valid() && parser.View() == F.START && parser.key == K.NO_KEY && bufs == [] && View() == Queue([], None)
    }

    constructor ()
      ensures New()
    {
      parser := new Parser();
      bufs, requests, reqLeader := [], [], None;
      new;
      parser.Reset();
    }

    /** From the queue q and its keys, by what the automata make of the bytes. */
    ghost predicate Got(q: Queue, keys: seq<seq<byte>>, pieces: seq<F.Piece>, pieceKeys: seq<K.Key>)
      reads this
    {
      View() == AttachAll(q, pieces) && Keys() == keys + KeyTexts(Flat(bufs), pieceKeys)
    }

    lemma GotMore(q: Queue, keys: seq<seq<byte>>, qm: Queue, keysM: seq<seq<byte>>, ps: seq<F.Piece>, ks: seq<K.Key>,
                  ps': seq<F.Piece>, ks': seq<K.Key>)
      requires qm == AttachAll(q, ps) && keysM == keys + KeyTexts(Flat(bufs), ks) && Got(qm, keysM, ps', ks')
      ensures Got(q, keys, ps + ps', ks + ks')
    {
      hide *;
      GotIs(qm, keysM, ps', ks');
      GotIs(q, keys, ps + ps', ks + ks');
      AttachMore(q, ps, ps');
      TextsAppend(Flat(bufs), ks, ks');
      assert keys + KeyTexts(Flat(bufs), ks) + KeyTexts(Flat(bufs), ks')
             == keys + (KeyTexts(Flat(bufs), ks) + KeyTexts(Flat(bufs), ks'));
    }

    lemma GotNone()
      ensures Got(View(), Keys(), [], [])
    {
    }

    /** A new request from what the parser has. */
    method Push(complete: bool) returns (e: Entry)
      modifies this`requests, this`reqLeader
      ensures e.begin == parser.reqBegin && e.end == parser.reqEnd
      ensures e.keyBegin == parser.keyBegin && e.keyEnd == parser.keyEnd
      ensures requests == old(requests) + [e] && Keys() == old(Keys()) + [KeyOf(bufs, e)]
      ensures var body := Between(bufs, parser.reqBegin, parser.reqEnd);
              View() == Attach(old(View()), F.Piece(body, complete, parser.mCommand, parser.mArgNum))
    {
      hide Between, F.FixedHead, AsRequests, KeysOf, KeyOf;
      var self: nat := |requests|;
      if !complete && reqLeader == None {
        reqLeader := Some(self);
      }
      var head := if reqLeader == None then [] else F.FixedHead(parser.mCommand);
      var n := if F.ModeOf(parser.mCommand) == F.MultiKeyVal then (parser.mArgNum - 1) / 2 else parser.mArgNum - 1;
      var followers: nat := if reqLeader == Some(self) && n >= 0 then n else 0;
      e := Entry(head, parser.reqBegin, parser.reqEnd, parser.keyBegin, parser.keyEnd, reqLeader, followers,
                 parser.mCommand);
      EntryMore(bufs, requests, e);
      requests := requests + [e];
      if complete {
        reqLeader := None;
      }
      assert Keys() == old(Keys()) + [KeyOf(bufs, e)];
    }

    /** What has come out is queued: its bytes, and its key. */
    method PushOut(complete: bool, ghost x: seq<byte>)
      requires Follows(bufs, parser.Snapshot(), x) && parser.req != [] && x <= Flat(bufs)
      requires Inside(bufs, parser.reqEnd) && Offset(bufs, parser.reqEnd) == |x|
      requires forall i :: 0 <= i < |requests| ==> Held(bufs, requests[i])
      modifies this`requests, this`reqLeader
      ensures forall i :: 0 <= i < |requests| ==> Held(bufs, requests[i])
      ensures Got(old(View()), old(Keys()), [F.Piece(parser.req, complete, parser.mCommand, parser.mArgNum)],
                  [parser.key])
    {
      hide *;
      ghost var t := parser.Snapshot();
      SnapIs(parser);
      OutBytes(bufs, t, x, parser.reqEnd);
      var e := Push(complete);
      HeldBy(bufs, t, x, e, parser.reqEnd);
      AttachOne(old(View()), F.Piece(parser.req, complete, parser.mCommand, parser.mArgNum));
      OneText(Flat(bufs), parser.key);
      GotIs(old(View()), old(Keys()), [F.Piece(parser.req, complete, parser.mCommand, parser.mArgNum)], [parser.key]);
    }

    /** A turn of the loop of parse, on the bytes behind x: at most one request. */
    method Turn(pos: nat, split: bool, ghost x: seq<byte>) returns (ok: bool, next: nat)
      requires LastFrom(bufs, x, pos) && At(x) && pos < |bufs[|bufs| - 1]|
      modifies this`requests, this`reqLeader, parser
      ensures pos <= next <= |bufs[|bufs| - 1]| && (ok ==> pos < next)
      ensures var bytes := bufs[|bufs| - 1][pos..next];
              var r := F.Cuts(old(parser.View()), bytes, split);
              var q := K.Keyed(|x|, old(parser.key), old(parser.View()), bytes, split);
              if ok then
                && At(x + bytes) && parser.View() == r.state && parser.key == q.key
                && Got(old(View()), old(Keys()), r.pieces, q.keys)
              else r.state.phase in {F.Failed, F.OtherCommand}
    {
      hide *;
      LastIs(bufs, x, pos);
      var id := |bufs| - 1;
      ghost var s := parser.Snapshot();
      SnapIs(parser);
      AtMeans(x);
      GotNone();
      var result;
      result, next := parser.Parse(bufs[id], pos, id, split, |x|);
      ghost var bytes := bufs[id][pos..next];
      if result == ParseError || result == Other {
        return false, next;
      }
      ghost var t := parser.Snapshot();
      SnapIs(parser);
      LastOn(bufs, x, pos, next);
      if result == Normal {
        QuietMeans(s, t, bufs[id], pos, next, id, split, |x|);
        FollowsOn(bufs, s, t, F.Cutting([], t.state), K.Keying([], t.key), x, pos, next, split);
      } else {
        ghost var piece := F.Piece(parser.req, result == Complete, parser.mCommand, parser.mArgNum);
        ghost var keying := K.Keying([parser.key], if result == Complete then K.NO_KEY else parser.key);
        TookMeans(s, t, F.Cutting([piece], parser.View()), keying, bufs[id], pos, next, id, split, |x|);
        FollowsOn(bufs, s, t, F.Cutting([piece], parser.View()), keying, x, pos, next, split);
        PushOut(result == Complete, x + bytes);
        if result == Complete {
          parser.Reset();
          SnapIs(parser);
          FollowsReset(bufs, parser.Snapshot(), x + bytes);
        }
      }
      AtIs(x + bytes);
      return true, next;
    }

    lemma AtIs(x: seq<byte>)
      ensures At(x) <==>
                && parser.Valid() && parser.mState != Finished && Follows(bufs, parser.Snapshot(), x)
                && forall i :: 0 <= i < |requests| ==> Held(bufs, requests[i])
    {
    }

    lemma ValidIs()
      ensures Valid() <==> At(Flat(bufs))
    {
    }

    lemma ViewIs()
      ensures View() == Queue(AsRequests(bufs, requests), reqLeader) && Keys() == KeysOf(bufs, requests)
    {
    }

    lemma GotIs(q: Queue, keys: seq<seq<byte>>, pieces: seq<F.Piece>, pieceKeys: seq<K.Key>)
      ensures Got(q, keys, pieces, pieceKeys) <==>
                View() == AttachAll(q, pieces) && Keys() == keys + KeyTexts(Flat(bufs), pieceKeys)
    {
    }

    lemma AtMeans(x: seq<byte>)
      requires At(x)
      ensures parser.Valid() && parser.mState != Finished && Follows(bufs, parser.Snapshot(), x)
      ensures K.SeenBefore(parser.key, |x|) && forall i :: 0 <= i < |requests| ==> Held(bufs, requests[i])
    {
    }

    /** The loop of parse over the last buffer: each piece of a command and each whole command
        becomes a request. False for an error, or for a command that is not modelled. */
    method Parse(pos0: nat, split: bool, ghost x0: seq<byte>) returns (ok: bool)
      requires LastFrom(bufs, x0, pos0) && At(x0)
      modifies this`requests, this`reqLeader, parser
      ensures var bytes := bufs[|bufs| - 1][pos0..];
              var r := F.Cuts(old(parser.View()), bytes, split);
              var q := K.Keyed(|x0|, old(parser.key), old(parser.View()), bytes, split);
              if ok then
                && Valid() && parser.View() == r.state && parser.key == q.key
                && Got(old(View()), old(Keys()), r.pieces, q.keys)
              else r.state.phase in {F.Failed, F.OtherCommand}
    {
      hide *;
      LastIs(bufs, x0, pos0);
      ghost var s, k, q0, keys0 := parser.View(), parser.key, View(), Keys();
      var id := |bufs| - 1;
      var buf := bufs[id];
      var pos := pos0;
      ghost var x := x0;
      NoBytes(s, buf, pos0, split);
      K.NothingKeyed(|x0|, k, s, split);
      GotNone();
      assert buf[pos0..pos0] == [] && x0 + [] == x0;
      while pos < |buf|
        invariant pos0 <= pos <= |buf| && x == x0 + buf[pos0..pos] && LastFrom(bufs, x, pos) && At(x)
        invariant F.Cuts(s, buf[pos0..pos], split).state == parser.View()
        invariant K.Keyed(|x0|, k, s, buf[pos0..pos], split).key == parser.key
        invariant Got(q0, keys0, F.Cuts(s, buf[pos0..pos], split).pieces,
                      K.Keyed(|x0|, k, s, buf[pos0..pos], split).keys)
        decreases |buf| - pos
      {
        ghost var from, m, km, qm, keysM := pos, parser.View(), parser.key, View(), Keys();
        GotIs(q0, keys0, F.Cuts(s, buf[pos0..from], split).pieces, K.Keyed(|x0|, k, s, buf[pos0..from], split).keys);
        ok, pos := Turn(pos, split, x);
        ThenBoth(|x0|, k, s, buf, pos0, from, pos, split);
        if !ok {
          StaysFailed(s, buf, pos0, pos, split);
          return;
        }
        GotMore(q0, keys0, qm, keysM,
                F.Cuts(s, buf[pos0..from], split).pieces, K.Keyed(|x0|, k, s, buf[pos0..from], split).keys,
                F.Cuts(m, buf[from..pos], split).pieces, K.Keyed(|x|, km, m, buf[from..pos], split).keys);
        LastOn(bufs, x, from, pos);
        assert x0 + buf[pos0..from] + buf[from..pos] == x0 + buf[pos0..pos];
        x := x + buf[from..pos];
      }
      assert buf[pos0..pos] == buf[pos0..];
      LastIs(bufs, x, pos);
      assert buf[pos..] == [];
      ValidIs();
      return true;
    }

    /** One read, into the last buffer or a new one. */
    method ReadEvent(bytes: seq<byte>, newBuf: bool, split: bool) returns (ok: bool)
      requires Valid() && (newBuf || bufs != [])
      modifies this, parser
      ensures Flat(bufs) == old(Flat(bufs)) + bytes
      ensures var r := F.Cuts(old(parser.View()), bytes, split);
              var q := K.Keyed(|old(Flat(bufs))|, old(parser.key), old(parser.View()), bytes, split);
              if ok then
                && Valid() && parser.View() == r.state && parser.key == q.key
                && Got(old(View()), old(Keys()), r.pieces, q.keys)
              else r.state.phase in {F.Failed, F.OtherCommand}
    {
      hide *;
      ghost var before, x := bufs, Flat(bufs);
      ValidIs();
      ViewIs();
      AtMeans(x);
      ReadGrows(bufs, bytes, newBuf);
      AfterReadIs(bufs, bytes, newBuf);
      HeldGrows(before, AfterRead(bufs, bytes, newBuf), requests);
      FollowsGrows(before, AfterRead(bufs, bytes, newBuf), parser.Snapshot(), x);
      var pos: nat := 0;
      if newBuf {
        bufs := bufs + [bytes];
      } else {
        var n := |bufs| - 1;
        pos := |bufs[n]|;
        bufs := bufs[n := bufs[n] + bytes];
      }
      AtIs(x);
      LastIs(bufs, x, pos);
      ViewIs();
      ok := Parse(pos, split, x);
    }

    /** Reads that come one after the other, cut anywhere, each with its own decision whether
        commands are split. */
    method ReadAll(input: seq<R.Read>) returns (ok: bool)
      requires Valid()
      modifies this, parser
      ensures var r := R.CutsOn(old(parser.View()), R.Stream(input), R.On(input));
              var q := R.KeyedOn(|old(Flat(bufs))|, old(parser.key), old(parser.View()), R.Stream(input), R.On(input));
              if ok then
                && Valid() && Flat(bufs) == old(Flat(bufs)) + R.Stream(input)
                && parser.View() == r.state && parser.key == q.key && Got(old(View()), old(Keys()), r.pieces, q.keys)
              else r.state.phase in {F.Failed, F.OtherCommand}
    {
      hide *;
      ghost var s, k, q0, keys0, x0 := parser.View(), parser.key, View(), Keys(), Flat(bufs);
      ValidIs();
      AtMeans(x0);
      var i := 0;
      R.NoReads(|x0|, k, s, input);
      GotNone();
      while i < |input|
        invariant i <= |input| && Valid() && Flat(bufs) == x0 + R.Stream(input[..i])
        invariant parser.View() == R.CutsOn(s, R.Stream(input[..i]), R.On(input[..i])).state
        invariant parser.key == R.KeyedOn(|x0|, k, s, R.Stream(input[..i]), R.On(input[..i])).key
        invariant Got(q0, keys0, R.CutsOn(s, R.Stream(input[..i]), R.On(input[..i])).pieces,
                      R.KeyedOn(|x0|, k, s, R.Stream(input[..i]), R.On(input[..i])).keys)
      {
        ghost var m, km, qm, keysM, x := parser.View(), parser.key, View(), Keys(), R.Stream(input[..i]);
        ghost var r, q := R.CutsOn(s, x, R.On(input[..i])), R.KeyedOn(|x0|, k, s, x, R.On(input[..i]));
        GotIs(q0, keys0, r.pieces, q.keys);
        R.OneRead(|x0|, k, s, input, i);
        ghost var stream := Flat(bufs);
        ok := ReadEvent(input[i].bytes, input[i].newBuf || bufs == [], input[i].split);
        if !ok {
          R.FailsFor(s, input, i + 1);
          return;
        }
        R.OnSeen(|x0|, k, s, x, R.On(input[..i]));
        LongerTexts(stream, input[i].bytes, q.keys);
        GotMore(q0, keys0, qm, keysM, r.pieces, q.keys, F.Cuts(m, input[i].bytes, input[i].split).pieces,
                K.Keyed(|stream|, km, m, input[i].bytes, input[i].split).keys);
        assert x0 + x + input[i].bytes == x0 + (x + input[i].bytes);
        i := i + 1;
      }
      assert input[..i] == input;
      ok := true;
    }

    /** However a stream of commands is cut into reads, if none changes what is decided about
        splitting in the middle of a command: each command that is split becomes a leader and its
        followers, one for each key or pair, any other one request; and each is routed by its
        first argument. */
    method ReadCommands(ms: seq<Command>, input: seq<R.Read>) returns (ok: bool)
      requires New() && R.Stream(input) == Printed(ms) && Steady(ms, R.On(input))
      requires forall i :: 0 <= i < |ms| ==> Known(ms[i])
      modifies this, parser
      ensures ok && Valid() && parser.View() == F.START && reqLeader == None
      ensures var splits := Splitting(ms, R.On(input));
              AllRequests(View().requests, ms, splits) && Keys() == AllKeys(ms, splits)
    {
      hide *;
      ghost var on := R.On(input);
      StreamRequests(ms, on);
      ComesMeans(ms, on, Splitting(ms, on));
      NewMeans();
      ok := ReadAll(input);
      assert ok && Flat(bufs) == Printed(ms);
      TextsAre(Flat(bufs), R.KeyedOn(0, K.NO_KEY, F.START, Printed(ms), on).keys, AllKeys(ms, Splitting(ms, on)));
      GotIs(Queue([], None), [], R.CutsOn(F.START, Printed(ms), on).pieces,
            R.KeyedOn(0, K.NO_KEY, F.START, Printed(ms), on).keys);
      ViewIs();
    }

    lemma NewMeans()
      requires New()
      ensures Valid() && Flat(bufs) == [] && Keys() == [] && View() == Queue([], None)
      ensures parser.View() == F.START && parser.key == K.NO_KEY
    {
    }
  }

  lemma ComesMeans(ms: seq<Command>, on: seq<bool>, splits: seq<bool>)
    requires |on| == |Printed(ms)| && |splits| == |ms| && RequestsCome(ms, on, splits) && KeysCome(ms, on, splits)
    ensures var r := R.CutsOn(F.START, Printed(ms), on);
            var q := R.KeyedOn(0, K.NO_KEY, F.START, Printed(ms), on);
            var t := AttachAll(Queue([], None), r.pieces);
            && r.state == F.START && t.leader == None && AllRequests(t.requests, ms, splits)
            && q.key == K.NO_KEY && K.KeysAre(Printed(ms), q.keys, AllKeys(ms, splits))
            && r.state.phase !in {F.Failed, F.OtherCommand}
  {
  }

  lemma SnapIs(p: Parser)
    ensures var s := p.Snapshot();
            && s.state == p.View() && s.req == p.req && s.key == p.key && s.reqBegin == p.reqBegin
            && s.keyBegin == p.keyBegin && s.keyEnd == p.keyEnd
    ensures p.Valid() && p.mState != Idle ==> p.req != []
    ensures p.mState == Finished ==> p.View() == F.START
  {
  }

  lemma QuietMeans(s: Snap, t: Snap, buf: seq<byte>, a: nat, b: nat, id: nat, split: bool, at: nat)
    requires TookQuietly(s, t, buf, a, b, id, split, at)
    ensures Took(s, t, F.Cutting([], t.state), K.Keying([], t.key), buf, a, b, id, split, at) && a <= b <= |buf|
    ensures F.Cuts(s.state, buf[a..b], split) == F.Cutting([], t.state)
    ensures K.Keyed(at, s.key, s.state, buf[a..b], split) == K.Keying([], t.key)
  {
    hide F.Cuts, K.Keyed;
  }

  lemma TookMeans(s: Snap, t: Snap, cut: F.Cutting, keying: K.Keying, buf: seq<byte>, a: nat, b: nat, id: nat,
                  split: bool, at: nat)
    requires Took(s, t, cut, keying, buf, a, b, id, split, at)
    ensures a <= b <= |buf| && F.Cuts(s.state, buf[a..b], split) == cut
    ensures K.Keyed(at, s.key, s.state, buf[a..b], split) == keying
  {
    hide F.Cuts, K.Keyed;
  }

  lemma FollowsReset(bufs: seq<seq<byte>>, p: Snap, x: seq<byte>)
    requires p.req == [] && p.key == K.NO_KEY && p.keyBegin == None && p.keyEnd == None
    ensures Follows(bufs, p, x)
  {
  }

  lemma HeldBy(bufs: seq<seq<byte>>, p: Snap, x: seq<byte>, e: Entry, end: Place)
    requires Follows(bufs, p, x) && p.req != [] && Inside(bufs, end)
    requires e.begin == p.reqBegin && e.end == end && e.keyBegin == p.keyBegin && e.keyEnd == p.keyEnd
    ensures Held(bufs, e)
  {
    hide Inside;
  }

  /** Keys stay where they are in a longer stream. */
  lemma LongerTexts(x: seq<byte>, more: seq<byte>, keys: seq<K.Key>)
    requires forall i :: 0 <= i < |keys| ==> K.SeenBefore(keys[i], |x|)
    ensures KeyTexts(x + more, keys) == KeyTexts(x, keys)
  {
    forall i | 0 <= i < |keys| ensures K.KeyBytes(x + more, keys[i]) == K.KeyBytes(x, keys[i]) {
      var k := keys[i];
      assert K.SeenBefore(k, |x|);
      if k.from.Some? && k.to.Some? && k.from.value <= k.to.value {
        assert (x + more)[k.from.value..k.to.value] == x[k.from.value..k.to.value];
      }
    }
  }

  lemma TextsAre(stream: seq<byte>, keys: seq<K.Key>, args: seq<seq<byte>>)
    requires K.KeysAre(stream, keys, args)
    ensures KeyTexts(stream, keys) == args
  {
    hide K.KeyBytes;
    forall i | 0 <= i < |keys| ensures K.KeyBytes(stream, keys[i]) == args[i] {
      assert K.KeyIs(stream, keys[i], args[i]);
    }
  }

  lemma OneText(stream: seq<byte>, k: K.Key)
    ensures KeyTexts(stream, [k]) == [K.KeyBytes(stream, k)]
  {
  }

  lemma ThenBoth(at: nat, k: K.Key, s: F.State, buf: seq<byte>, a: nat, b: nat, c: nat, split: bool)
    requires a <= b <= c <= |buf|
    ensures var r, q := F.Cuts(s, buf[a..b], split), K.Keyed(at, k, s, buf[a..b], split);
            var r', q' := F.Cuts(r.state, buf[b..c], split), K.Keyed(at + (b - a), q.key, r.state, buf[b..c], split);
            && F.Cuts(s, buf[a..c], split) == F.Cutting(r.pieces + r'.pieces, r'.state)
            && K.Keyed(at, k, s, buf[a..c], split) == K.Keying(q.keys + q'.keys, q'.key)
  {
    hide F.Cuts, K.Keyed;
    F.CutsAppend(s, buf[a..b], buf[b..c], split);
    K.KeyedAppend(at, k, s, buf[a..b], buf[b..c], split);
    assert buf[a..b] + buf[b..c] == buf[a..c];
  }

  lemma NoneAttached(q: Queue)
    ensures AttachAll(q, []) == q
  {
  }

  lemma AttachOne(q: Queue, p: F.Piece)
    ensures AttachAll(q, [p]) == Attach(q, p)
  {
    assert [p][1..] == [];
    NoneAttached(Attach(q, p));
  }

  lemma FinishedView(p: Parser)
    requires p.mState == Finished
    ensures p.View() == F.START
  {
  }

  lemma StaysFailed(s: F.State, buf: seq<byte>, a: nat, b: nat, split: bool)
    requires a <= b <= |buf| && F.Cuts(s, buf[a..b], split).state.phase in {F.Failed, F.OtherCommand}
    ensures F.Cuts(s, buf[a..], split).state.phase in {F.Failed, F.OtherCommand}
  {
    hide F.Cuts;
    F.CutsAppend(s, buf[a..b], buf[b..], split);
    assert buf[a..b] + buf[b..] == buf[a..];
    F.Absorbed(F.Cuts(s, buf[a..b], split).state, buf[b..], split);
  }

  // ----- splitting preserves the command ---------------------------------------------------------------

  /** The argument that the k-th piece begins with. */
  function From(c: F.Cmd, k: nat): nat { if F.ModeOf(c) == F.MultiKeyVal then 2 * k else k }

  /** The requests of a split command: sent to the server, the k-th is the whole command for
      the k-th key or pair; all know the first as their leader, and it knows their number. */
  ghost predicate SplitFrom(rs: seq<Request>, first: nat, c: F.Cmd, args: Argv)
  {
    && first < |rs| && From(c, |rs| - first) == |args| && rs[first].followers == |rs| - first
    && forall k :: first <= k < |rs| ==>
        PieceOf(rs[k], first, k - first, c, args) && (k > first ==> rs[k].followers == 0)
  }

  ghost predicate PieceOf(r: Request, first: nat, k: nat, c: F.Cmd, args: Argv)
  {
    && r.cmd == c && r.leader == Some(first) && From(c, k) < From(c, k + 1) <= |args|
    && Sent(r) == PrintCommand([F.Name(c)] + args[From(c, k)..From(c, k + 1)])
  }

  /** Further pieces of the leader's command, up to the last. */
  lemma {:induction false} AttachRest(q: Queue, first: nat, ps: seq<F.Piece>)
    requires q.leader == Some(first) && ps != [] && forall k :: 0 <= k < |ps| ==> ps[k].last == (k + 1 == |ps|)
    ensures var r := AttachAll(q, ps);
            && r.leader == None && |r.requests| == |q.requests| + |ps| && r.requests[..|q.requests|] == q.requests
            && forall k :: 0 <= k < |ps| ==> r.requests[|q.requests| + k] == Set(ps[k], Some(first), |q.requests| + k)
    decreases |ps|
  {
    hide Set;
    var m := Attach(q, ps[0]);
    if |ps| == 1 {
      assert ps[1..] == [];
      assert AttachAll(q, ps) == m;
    } else {
      AttachRest(m, first, ps[1..]);
      var r := AttachAll(q, ps);
      assert r.requests[..|q.requests|] == r.requests[..|m.requests|][..|q.requests|];
      forall k | 0 <= k < |ps| ensures r.requests[|q.requests| + k] == Set(ps[k], Some(first), |q.requests| + k) {
        if k == 0 {
          assert r.requests[..|m.requests|][|q.requests|] == m.requests[|q.requests|];
        } else {
          assert r.requests[|m.requests| + (k - 1)] == Set(ps[1..][k - 1], Some(first), |m.requests| + (k - 1));
        }
      }
    }
  }

  /** All pieces of a split command, the first of which becomes the leader. */
  lemma AttachSplit(q: Queue, ps: seq<F.Piece>)
    requires q.leader == None && |ps| >= 2 && forall k :: 0 <= k < |ps| ==> ps[k].last == (k + 1 == |ps|)
    ensures var t, first := AttachAll(q, ps), |q.requests|;
            && t.leader == None && |t.requests| == first + |ps| && t.requests[..first] == q.requests
            && forall k :: 0 <= k < |ps| ==> t.requests[first + k] == Set(ps[k], Some(first), first + k)
  {
    hide AttachAll, Set;
    var first := |q.requests|;
    assert ps == [ps[0]] + ps[1..];
    AttachMore(q, [ps[0]], ps[1..]);
    AttachOne(q, ps[0]);
    var m := Attach(q, ps[0]);
    AttachRest(m, first, ps[1..]);
    var t := AttachAll(m, ps[1..]);
    assert t.requests[..first] == t.requests[..first + 1][..first];
    forall k | 0 <= k < |ps| ensures t.requests[first + k] == Set(ps[k], Some(first), first + k) {
      if k > 0 {
        assert t.requests[first + 1 + (k - 1)] == Set(ps[1..][k - 1], Some(first), first + k);
      } else {
        assert t.requests[..first + 1][first] == m.requests[first];
      }
    }
  }

  /** From a printed command that is split, at any chunking (see CutsAppend and AttachMore):
      requests for its keys or pairs in order, as many as the leader says. */
  lemma SplitCommand(q: Queue, name: seq<byte>, c: F.Cmd, args: Argv, split: bool)
    requires q.leader == None && Lower(name) == F.Name(c) && args != [] && F.GoodCount(c, |args| + 1)
    requires F.Splits(c, |args| + 1, split)
    ensures var r := F.Cuts(F.START, PrintCommand([name] + args), split);
            var t := AttachAll(q, r.pieces);
            && r.state == F.START && t.leader == None && |q.requests| <= |t.requests|
            && t.requests[..|q.requests|] == q.requests
            && SplitFrom(t.requests, |q.requests|, c, args)
  {
    hide *;
    var n, first := |args| + 1, |q.requests|;
    F.CommandPieces(name, c, args, split);
    EvenPairs(c, args);
    var ps := F.Pieces(c, n, args);
    SeveralPieces(c, args, split);
    AttachSplit(q, ps);
    SplitFromPieces(AttachAll(q, ps).requests, first, c, args);
  }

  lemma EvenPairs(c: F.Cmd, args: Argv)
    requires F.GoodCount(c, |args| + 1)
    ensures F.ModeOf(c) == F.MultiKeyVal ==> |args| % 2 == 0
  {
  }

  lemma SeveralPieces(c: F.Cmd, args: Argv, split: bool)
    requires F.GoodCount(c, |args| + 1) && F.Splits(c, |args| + 1, split)
    ensures var ps := F.Pieces(c, |args| + 1, args);
            |ps| >= 2 && forall k :: 0 <= k < |ps| ==> ps[k].last == (k + 1 == |ps|)
  {
    hide F.Pieces;
    var n := |args| + 1;
    F.PieceCount(c, n, args);
    forall k | 0 <= k < |F.Pieces(c, n, args)|
      ensures F.Pieces(c, n, args)[k].last == (k + 1 == |F.Pieces(c, n, args)|) { F.PieceAt(c, n, args, k); }
  }

  lemma SplitFromPieces(rs: seq<Request>, first: nat, c: F.Cmd, args: Argv)
    requires args != [] && F.GoodCount(c, |args| + 1)
    requires var ps := F.Pieces(c, |args| + 1, args);
             |rs| == first + |ps| && |ps| >= 1
             && forall k :: 0 <= k < |ps| ==> rs[first + k] == Set(ps[k], Some(first), first + k)
    ensures SplitFrom(rs, first, c, args)
  {
    hide F.FixedHead, F.Pieces, PrintCommand, F.Name, Set, PieceOf;
    var n := |args| + 1;
    var ps := F.Pieces(c, n, args);
    F.PieceCount(c, n, args);
    forall k | first <= k < |rs|
      ensures PieceOf(rs[k], first, k - first, c, args) && rs[k].followers == if k == first then |ps| else 0
    {
      assert rs[first + (k - first)] == Set(ps[k - first], Some(first), k);
      PieceSent(c, n, args, k - first, rs[k], first, k);
    }
  }

  lemma PieceSent(c: F.Cmd, n: int, args: Argv, i: nat, r: Request, first: nat, self: nat)
    requires n == |args| + 1 && (F.ModeOf(c) == F.MultiKeyVal ==> |args| % 2 == 0) && i < |F.Pieces(c, n, args)|
    requires r == Set(F.Pieces(c, n, args)[i], Some(first), self)
    ensures PieceOf(r, first, i, c, args)
    ensures r.followers == if self == first then |F.Pieces(c, n, args)| else 0
  {
    hide F.FixedHead, F.Pieces, PrintCommand, F.Name;
    F.PieceAt(c, n, args, i);
    F.PieceCount(c, n, args);
    F.PieceIsCommand(c, n, args, i);
  }

  /** A command that is not split is one request, with the bytes that came. */
  lemma WholeCommand(q: Queue, name: seq<byte>, c: F.Cmd, args: Argv, split: bool)
    requires q.leader == None && Lower(name) == F.Name(c) && args != [] && F.GoodCount(c, |args| + 1)
    requires !F.Splits(c, |args| + 1, split)
    ensures var r := F.Cuts(F.START, PrintCommand([name] + args), split);
            && r.state == F.START
            && AttachAll(q, r.pieces)
                 == Queue(q.requests + [Request([], PrintCommand([name] + args), None, 0, c)], None)
  {
    hide F.Cuts, PrintCommand, F.Name, AttachAll;
    F.CommandPieces(name, c, args, split);
    AttachOne(q, F.Piece(PrintCommand([name] + args), true, c, |args| + 1));
  }

  // ----- streams of commands -------------------------------------------------------------------------------

  /** A command with its name as the client spells it. */
  datatype Command = Command(name: seq<byte>, cmd: F.Cmd, args: Argv)

  predicate Known(m: Command) { Lower(m.name) == F.Name(m.cmd) && m.args != [] && F.GoodCount(m.cmd, |m.args| + 1) }

  function Printed(ms: seq<Command>): seq<byte>
  {
    if ms == [] then [] else
    var m := ms[|ms| - 1];
    Printed(ms[..|ms| - 1]) + PrintCommand([m.name] + m.args)
  }

  /** How many requests a command becomes. */
  function Number(m: Command, split: bool): nat
  {
    if !F.Splits(m.cmd, |m.args| + 1, split) then 1 else if F.ModeOf(m.cmd) == F.MultiKeyVal then |m.args| / 2
        else |m.args|
  }

  /** The requests from place `first` on are those of one command. */
  ghost predicate RequestsOf(rs: seq<Request>, first: nat, m: Command, split: bool)
  {
    if F.Splits(m.cmd, |m.args| + 1, split) then SplitFrom(rs, first, m.cmd, m.args)
    else |rs| == first + 1 && rs[first] == Request([], PrintCommand([m.name] + m.args), None, 0, m.cmd)
  }

  /** No read changes what is decided about splitting in the middle of a command. */
  ghost predicate Steady(ms: seq<Command>, on: seq<bool>)
    decreases |ms|
  {
    |on| == |Printed(ms)| &&
    (ms == [] ||
     var init := ms[..|ms| - 1];
     var a := |Printed(init)|;
     Steady(init, on[..a]) && forall j :: a <= j < |on| ==> on[j] == on[a])
  }

  /** What was decided for each command. */
  function Splitting(ms: seq<Command>, on: seq<bool>): (r: seq<bool>)
    requires |on| == |Printed(ms)|
    ensures |r| == |ms|
    decreases |ms|
  {
    if ms == [] then [] else
    var init := ms[..|ms| - 1];
    var a := |Printed(init)|;
    PrintedLonger(ms);
    Splitting(init, on[..a]) + [on[a]]
  }

  lemma PrintedLonger(ms: seq<Command>)
    requires ms != []
    ensures |Printed(ms)| > |Printed(ms[..|ms| - 1])|
  {
    var m := ms[|ms| - 1];
    assert PrintCommand([m.name] + m.args) != [];
  }

  /** The requests are those of the commands, in order. */
  ghost predicate AllRequests(rs: seq<Request>, ms: seq<Command>, splits: seq<bool>)
    requires |splits| == |ms|
    decreases |ms|
  {
    if ms == [] then rs == [] else
    var n := |ms| - 1;
    var first := |rs| - Number(ms[n], splits[n]);
    first >= 0 && AllRequests(rs[..first], ms[..n], splits[..n]) && RequestsOf(rs, first, ms[n], splits[n])
  }

  /** The keys of their requests: the first argument of each piece, and of each whole command. */
  function AllKeys(ms: seq<Command>, splits: seq<bool>): seq<seq<byte>>
    requires |splits| == |ms|
    decreases |ms|
  {
    if ms == [] then [] else
    var n := |ms| - 1;
    AllKeys(ms[..n], splits[..n]) + K.CommandKeys(ms[n].cmd, ms[n].args, splits[n])
  }

  /** These are the requests of the stream, */
  ghost predicate RequestsCome(ms: seq<Command>, on: seq<bool>, splits: seq<bool>)
    requires |on| == |Printed(ms)| && |splits| == |ms|
  {
    var r := R.CutsOn(F.START, Printed(ms), on);
    var t := AttachAll(Queue([], None), r.pieces);
    r.state == F.START && t.leader == None && AllRequests(t.requests, ms, splits)
  }

  /** and these their keys. */
  ghost predicate KeysCome(ms: seq<Command>, on: seq<bool>, splits: seq<bool>)
    requires |on| == |Printed(ms)| && |splits| == |ms|
  {
    var q := R.KeyedOn(0, K.NO_KEY, F.START, Printed(ms), on);
    q.key == K.NO_KEY && K.KeysAre(Printed(ms), q.keys, AllKeys(ms, splits))
  }

  lemma {:induction false} StreamRequests(ms: seq<Command>, on: seq<bool>)
    requires (forall i :: 0 <= i < |ms| ==> Known(ms[i])) && Steady(ms, on)
    ensures RequestsCome(ms, on, Splitting(ms, on)) && KeysCome(ms, on, Splitting(ms, on))
    decreases |ms|
  {
    hide *;
    if ms == [] {
      NoCommands(on);
      NoStream(on);
    } else {
      var n := |ms| - 1;
      var a := |Printed(ms[..n])|;
      SteadyMeans(ms, on);
      assert ms[..n] + [ms[n]] == ms && on[..a] + on[a..] == on;
      PrintedMore(ms[..n], ms[n]);
      StreamRequests(ms[..n], on[..a]);
      OneMoreCommand(ms[..n], on[..a], Splitting(ms[..n], on[..a]), ms[n], on[a..], on[a]);
    }
  }

  lemma NoCommands(on: seq<bool>)
    requires Steady([], on)
    ensures on == [] && Splitting([], on) == []
  {
  }

  lemma SteadyMeans(ms: seq<Command>, on: seq<bool>)
    requires Steady(ms, on) && ms != []
    ensures var init, a := ms[..|ms| - 1], |Printed(ms[..|ms| - 1])|;
            && a < |on| == |Printed(ms)| && Steady(init, on[..a]) && |on[..a]| == |Printed(init)|
            && Splitting(ms, on) == Splitting(init, on[..a]) + [on[a]]
            && forall j :: 0 <= j < |on[a..]| ==> on[a..][j] == on[a]
  {
    PrintedLonger(ms);
  }

  lemma PrintedMore(ms: seq<Command>, m: Command)
    ensures Printed(ms + [m]) == Printed(ms) + PrintCommand([m.name] + m.args)
  {
    assert (ms + [m])[..|ms|] == ms;
  }

  /** One more command in a stream. */
  lemma OneMoreCommand(ms: seq<Command>, on: seq<bool>, splits: seq<bool>, m: Command, on': seq<bool>, split: bool)
    requires |on| == |Printed(ms)| && |on'| == |PrintCommand([m.name] + m.args)| && |splits| == |ms|
    requires Known(m) && forall j :: 0 <= j < |on'| ==> on'[j] == split
    requires RequestsCome(ms, on, splits) && KeysCome(ms, on, splits)
    ensures |on + on'| == |Printed(ms + [m])|
    ensures RequestsCome(ms + [m], on + on', splits + [split]) && KeysCome(ms + [m], on + on', splits + [split])
  {
    hide RequestsCome, KeysCome, Printed, Known;
    PrintedMore(ms, m);
    RequestsMore(ms, on, splits, m, on', split);
    KeysComeMore(ms, on, splits, m, on', split);
  }

  lemma RequestsMore(ms: seq<Command>, on: seq<bool>, splits: seq<bool>, m: Command, on': seq<bool>, split: bool)
    requires |on| == |Printed(ms)| && |on'| == |PrintCommand([m.name] + m.args)| && |splits| == |ms|
    requires Known(m) && (forall j :: 0 <= j < |on'| ==> on'[j] == split) && RequestsCome(ms, on, splits)
    requires Printed(ms + [m]) == Printed(ms) + PrintCommand([m.name] + m.args)
    ensures RequestsCome(ms + [m], on + on', splits + [split])
  {
    hide F.Cuts, R.CutsOn, PrintCommand, Printed, F.Name, AttachAll, F.GoodCount, Number, RequestsOf;
    var x, bytes := Printed(ms), PrintCommand([m.name] + m.args);
    var r := R.CutsOn(F.START, x, on);
    R.OnAppend(0, K.NO_KEY, F.START, x, on, bytes, on');
    R.OnSame(0, K.NO_KEY, F.START, bytes, on', split);
    CommandRequests(AttachAll(Queue([], None), r.pieces), m, split);
    AttachMore(Queue([], None), r.pieces, F.Cuts(F.START, bytes, split).pieces);
    assert (splits + [split])[..|splits|] == splits && (ms + [m])[..|ms|] == ms;
  }

  lemma KeysComeMore(ms: seq<Command>, on: seq<bool>, splits: seq<bool>, m: Command, on': seq<bool>, split: bool)
    requires |on| == |Printed(ms)| && |on'| == |PrintCommand([m.name] + m.args)| && |splits| == |ms|
    requires Known(m) && (forall j :: 0 <= j < |on'| ==> on'[j] == split)
    requires RequestsCome(ms, on, splits) && KeysCome(ms, on, splits)
    requires Printed(ms + [m]) == Printed(ms) + PrintCommand([m.name] + m.args)
    ensures KeysCome(ms + [m], on + on', splits + [split])
  {
    hide R.CutsOn, K.Keyed, R.KeyedOn, PrintCommand, Printed, F.Name, AttachAll, AllRequests, K.KeysAre, K.CommandKeys;
    hide F.GoodCount;
    var x, bytes := Printed(ms), PrintCommand([m.name] + m.args);
    var q := R.KeyedOn(0, K.NO_KEY, F.START, x, on);
    R.OnAppend(0, K.NO_KEY, F.START, x, on, bytes, on');
    R.OnSame(|x|, K.NO_KEY, F.START, bytes, on', split);
    K.KeysOfCommand(x, m.name, m.cmd, m.args, split);
    K.KeysMore(x, bytes, q.keys, AllKeys(ms, splits), K.Keyed(|x|, K.NO_KEY, F.START, bytes, split).keys,
               K.CommandKeys(m.cmd, m.args, split));
    assert (splits + [split])[..|splits|] == splits && (ms + [m])[..|ms|] == ms;
  }

  /** One command behind others. */
  lemma CommandRequests(q: Queue, m: Command, split: bool)
    requires q.leader == None && Known(m)
    ensures var r := F.Cuts(F.START, PrintCommand([m.name] + m.args), split);
            var t := AttachAll(q, r.pieces);
            && r.state == F.START && t.leader == None && |t.requests| == |q.requests| + Number(m, split)
            && t.requests[..|q.requests|] == q.requests && RequestsOf(t.requests, |q.requests|, m, split)
  {
    hide F.Cuts, PrintCommand, F.Name, AttachAll, SplitFrom;
    if F.Splits(m.cmd, |m.args| + 1, split) {
      SplitCommand(q, m.name, m.cmd, m.args, split);
      var t := AttachAll(q, F.Cuts(F.START, PrintCommand([m.name] + m.args), split).pieces);
      SplitNumber(t.requests, |q.requests|, m, split);
    } else {
      WholeCommand(q, m.name, m.cmd, m.args, split);
      assert (q.requests + [Request([], PrintCommand([m.name] + m.args), None, 0, m.cmd)])[..|q.requests|]
             == q.requests;
    }
  }

  lemma SplitNumber(rs: seq<Request>, first: nat, m: Command, split: bool)
    requires F.Splits(m.cmd, |m.args| + 1, split) && SplitFrom(rs, first, m.cmd, m.args)
    ensures |rs| == first + Number(m, split)
  {
    hide PieceOf;
  }

  lemma NoStream(on: seq<bool>)
    requires on == []
    ensures RequestsCome([], on, []) && KeysCome([], on, [])
  {
    R.NothingOn(0, K.NO_KEY, F.START);
  }

  // ----- a decision that changes in the middle of a command --------------------------------------------------

  /** What a client sees when k arguments of a command have been read with `split`, and the next
      read comes with the opposite: the requests from `first` on. */
  ghost function SwitchedRequests(q: Queue, m: Command, k: nat, split: bool): Queue
    requires k <= |m.args|
  {
    var r := F.Cuts(F.START, R.UpTo(m.name, m.args, k), split);
    AttachAll(q, r.pieces + F.Cuts(r.state, PrintArgs(m.args[k..]), !split).pieces)
  }

  lemma NothingAfter(m: Command, s: F.State, split: bool)
    ensures PrintArgs(m.args[|m.args|..]) == [] && F.Cuts(s, [], split) == F.Cutting([], s)
    ensures forall ps: seq<F.Piece> :: ps + [] == ps
  {
  }

  lemma {:induction false} AttachCount(q: Queue, ps: seq<F.Piece>)
    ensures |AttachAll(q, ps).requests| == |q.requests| + |ps|
    decreases |ps|
  {
    if ps != [] { AttachCount(Attach(q, ps[0]), ps[1..]); }
  }

  /** Splitting goes off: the leader counts all keys, and the last request holds key k again. */
  lemma NotWhenOff(q: Queue, m: Command, k: nat, s: bool)
    requires q.leader == None && Known(m) && F.ModeOf(m.cmd) == F.MultiKey && 0 < k < |m.args|
    ensures var rs, first := AttachAll(q, R.Switched(m.cmd, m.name, m.args, k, true)).requests, |q.requests|;
            && |rs| == first + k + 1 && rs[first].followers == |m.args|
            && !RequestsOf(rs, first, m, s)
  {
    hide F.Cuts, PrintCommand, F.Name, AttachAll, F.FixedHead, F.GoodCount, PrintArg, PrintArgs;
    var ps, first := R.Switched(m.cmd, m.name, m.args, k, true), |q.requests|;
    AttachSplit(q, ps);
    var rs := AttachAll(q, ps).requests;
    assert rs[first + 0] == Set(ps[0], Some(first), first);
    assert rs[first + k] == Set(ps[k], Some(first), first + k);
    assert Sent(rs[first + k]) == F.FixedHead(m.cmd) + (PrintArg(m.args[k - 1]) + PrintArgs(m.args[k..]));
    if k + 1 == |m.args| {
      LastOnce(m, k);
      assert From(m.cmd, k) == k && From(m.cmd, k + 1) == k + 1 && m.args[k..k + 1] == m.args[k..];
      assert !PieceOf(rs[first + k], first, k, m.cmd, m.args);
    }
  }

  /** With the last key alone the request would be a command. */
  lemma LastOnce(m: Command, k: nat)
    requires F.ModeOf(m.cmd) == F.MultiKey && 0 < k && k + 1 == |m.args|
    ensures F.FixedHead(m.cmd) + (PrintArg(m.args[k - 1]) + PrintArgs(m.args[k..]))
            != PrintCommand([F.Name(m.cmd)] + m.args[k..])
  {
    hide F.FixedHead, F.Name, PrintArgs, Header, PrintCommand;
    var c, rest := m.cmd, m.args[k..];
    F.FixedHeadIsHeader(c);
    F.PrintNamed(F.Name(c), rest);
    assert |PrintArg(m.args[k - 1])| > 0;
  }

  /** Splitting goes on: the first keys are gone. */
  lemma NotWhenOn(q: Queue, m: Command, k: nat, s: bool)
    requires q.leader == None && Known(m) && F.ModeOf(m.cmd) == F.MultiKey && 0 < k < |m.args|
    ensures var rs, first := AttachAll(q, R.Switched(m.cmd, m.name, m.args, k, false)).requests, |q.requests|;
            |rs| == first + |m.args| - k && !RequestsOf(rs, first, m, s)
  {
    hide F.Cuts, PrintCommand, F.Name, AttachAll, F.FixedHead, F.GoodCount, F.Pieces, PieceOf;
    var ps, first := R.Switched(m.cmd, m.name, m.args, k, false), |q.requests|;
    var n := |m.args| + 1;
    AttachCount(q, ps);
    F.PieceCount(m.cmd, n, m.args[k..]);
    if k + 1 == |m.args| {
      F.PieceAt(m.cmd, n, m.args[k..], 0);
      assert ps == [ps[0]] && m.args[k..][0..1] == m.args[k..];
      AttachOne(q, ps[0]);
      WholeIsLonger(m, k);
    }
  }

  lemma WholeIsLonger(m: Command, k: nat)
    requires k <= |m.args|
    ensures |PrintArgs(m.args[k..])| < |PrintCommand([m.name] + m.args)|
  {
    hide PrintArgs, Header, PrintCommand;
    F.PrintNamed(m.name, m.args);
    PrintArgsAppend(m.args[..k], m.args[k..]);
    assert m.args[..k] + m.args[k..] == m.args;
  }

  /** A command of two or more keys comes out right, split or whole, iff the decision changes before
      its first argument or after its last. In between, either the leader waits for as many
      replies as there are keys, or the first keys are lost. */
  lemma SwitchedRight(q: Queue, m: Command, k: nat, split: bool)
    requires q.leader == None && Known(m) && F.ModeOf(m.cmd) == F.MultiKey && 2 <= |m.args| && k <= |m.args|
    ensures var rs, first := SwitchedRequests(q, m, k, split).requests, |q.requests|;
            (first <= |rs| && exists s: bool :: RequestsOf(rs, first, m, s)) <==> k == 0 || k == |m.args|
    ensures var rs, first := SwitchedRequests(q, m, k, split).requests, |q.requests|;
            0 < k < |m.args| ==>
              if split then |rs| == first + k + 1 && rs[first].followers == |m.args|
              else |rs| == first + |m.args| - k
  {
    hide F.Cuts, PrintCommand, F.Name, AttachAll, RequestsOf, F.GoodCount, R.UpTo, R.Switched, PrintArgs;
    var rs, first := SwitchedRequests(q, m, k, split).requests, |q.requests|;
    if k == 0 || k == |m.args| {
      R.SwitchedOutside(m.name, m.cmd, m.args, split);
      var s := if k == 0 then !split else split;
      CommandRequests(q, m, s);
      assert m.args[0..] == m.args;
      NothingAfter(m, F.Cuts(F.START, R.UpTo(m.name, m.args, k), split).state, !split);
      assert RequestsOf(rs, first, m, s);
    } else if split {
      R.SwitchedOff(m.name, m.cmd, m.args, k);
      NotWhenOff(q, m, k, true);
      NotWhenOff(q, m, k, false);
    } else {
      R.SwitchedOn(m.name, m.cmd, m.args, k);
      NotWhenOn(q, m, k, true);
      NotWhenOn(q, m, k, false);
    }
  }
}
