/** predixy's resumable reply parser: it is handed buffers as they are read and goes on
    where it stopped, skipping bulk bodies without looking at their bytes. */
module ResponseParser {
  import opened Bytes
  import opened Places
  import F = ReplyFormat

  datatype State =
    | Idle | StatusHead | ErrorHead | IntegerHead | StringHead | ArrayHead | HeadLF
    | ArrayBody | StringBody | StringBodyLF | LineBody | SubStringLen | SubStringLenLF
    | SubStringBody | SubStringBodyLF | SubArrayLen | SubArrayLenLF | ElementLF | Finished

  datatype Result = Normal | Partial | Complete | ParseError

  class Parser {
    var mType: F.Kind
    var mState: State
    var mInteger: int
    var mStringLen: int
    var mStringCnt: int
    const mArrayNum: array<int>
    const mElementCnt: array<int>
    var mDepth: nat
    var mSign: bool
    var begin: Place
    var end: Place

    /** The open arrays, outermost first. */
    ghost function Stack(): seq<F.Level>
      requires mDepth <= mArrayNum.Length && mDepth <= mElementCnt.Length
      reads this`mDepth, mArrayNum, mElementCnt
    {
      var (nums, cnts) := (mArrayNum, mElementCnt);
      seq(mDepth, i requires 0 <= i < nums.Length && i < cnts.Length
                  reads nums, cnts => F.Level(nums[i], cnts[i]))
    }

    /** The state of the automaton that the fields stand for. */
    ghost function View(): F.Parse
      requires mDepth <= mArrayNum.Length && mDepth <= mElementCnt.Length
      reads this`mType, this`mState, this`mInteger, this`mSign, this`mStringLen, this`mStringCnt, this`mDepth, mArrayNum
      reads mElementCnt
    {
      match mState
      case Idle => F.Idle
      case StatusHead => F.Line(mType)
      case ErrorHead => F.Line(mType)
      case IntegerHead => F.Number(F.Head(mType), mInteger, mSign)
      case StringHead => F.Number(F.Head(mType), mInteger, mSign)
      case ArrayHead => F.Number(F.Head(mType), mInteger, mSign)
      case HeadLF => F.HeadLF(mType, mInteger)
      case ArrayBody => F.Element(Stack())
      case StringBody => F.Body(mStringLen, mStringCnt)
      case StringBodyLF => F.BodyLF
      case LineBody => F.InLine(Stack())
      case SubStringLen => F.Number(F.SubString(Stack()), mInteger, mSign)
      case SubStringLenLF => F.SubStringLF(Stack(), mInteger)
      case SubStringBody => F.SubBody(Stack(), mStringLen, mStringCnt)
      case SubStringBodyLF => F.Failed
      case SubArrayLen => F.Number(F.SubArray(Stack()), mInteger, false)
      case SubArrayLenLF => F.SubArrayLF(Stack(), mInteger)
      case ElementLF => F.ElementLF(Stack())
      case Finished => F.Finished(mType, if mType == F.IntegerReply then mInteger else 0)
    }

    /** The fields fit the state, and the stack has room for what it holds. */
    ghost predicate Valid()
      reads this`mType, this`mState, this`mInteger, this`mSign, this`mStringLen, this`mStringCnt, this`mDepth, mArrayNum
      reads mElementCnt
    {
      && mArrayNum.Length == F.MAX_ARRAY_DEPTH == mElementCnt.Length && mArrayNum != mElementCnt
      && mDepth <= F.MAX_ARRAY_DEPTH && F.Sound(View())
      && (mState == Idle || mState == StatusHead || mState == ErrorHead ==> mInteger == 0 && !mSign)
      && (mState == StringBody || mState == StringBodyLF ==> mType == F.StringReply)
      && (InArray() ==> mType == F.ArrayReply)
    }

    predicate InArray()
      reads this`mState
    {
      mState in {ArrayBody, LineBody, SubStringLen, SubStringLenLF, SubStringBody, SubArrayLen, SubArrayLenLF,
              ElementLF}
    }

    constructor ()
      ensures Valid() && View() == F.Idle
    {
      mArrayNum, mElementCnt := new int[F.MAX_ARRAY_DEPTH], new int[F.MAX_ARRAY_DEPTH];
      mType, mState, mInteger, mStringLen, mStringCnt, mDepth, mSign := F.NoReply, Idle, 0, 0, 0, 0, false;
      begin, end := Place(0, 0), Place(0, 0);
    }

    method Reset()
      requires Valid()
      modifies this
      ensures Valid() && View() == F.Idle
    {
      mType, mState, mInteger, mStringLen, mStringCnt, mDepth, mSign := F.NoReply, Idle, 0, 0, 0, 0, false;
      begin, end := Place(0, 0), Place(0, 0);
    }

    /** A step of the automaton by the fields. */
    twostate predicate Steps(ch: byte, error: bool, done: bool)
      reads this`mType, this`mState, this`mInteger, this`mSign, this`mStringLen, this`mStringCnt, this`mDepth, mArrayNum
      reads mElementCnt
    {
      && old(Valid()) && (error <==> F.Step(old(View()), ch) == F.Failed)
      && (!error ==> Valid() && View() == F.Step(old(View()), ch))
      && (done <==> !error && mState == Finished)
    }

    /** Idle: the first byte says which reply it is. */
    method Tag(ch: byte) returns (error: bool)
      requires Valid() && mState == Idle
      modifies this`mType, this`mState
      ensures Steps(ch, error, false)
    {
      error := false;
      if ch == PLUS {
        mType, mState := F.StatusReply, StatusHead;
      } else if ch == MINUS {
        mType, mState := F.ErrorReply, ErrorHead;
      } else if ch == COLON {
        mType, mState := F.IntegerReply, IntegerHead;
      } else if ch == DOLLAR {
        mType, mState := F.StringReply, StringHead;
      } else if ch == STAR {
        mType, mState := F.ArrayReply, ArrayHead;
      } else {
        error := true;
      }
    }

    /** The rest of the first line. */
    method InHead(ch: byte) returns (error: bool)
      requires Valid() && mState in {StatusHead, ErrorHead, IntegerHead, StringHead, ArrayHead}
      modifies this`mState, this`mInteger, this`mSign
      ensures Steps(ch, error, false)
    {
      error := false;
      if mState == StatusHead || mState == ErrorHead {
        if ch == CR { mState := HeadLF; }
      } else if IsDigit(ch) {
        mInteger := mInteger * 10 + (ch - ZERO);
      } else if ch == CR {
        if mSign { mInteger := -mInteger; }
        mState := HeadLF;
      } else if ch == MINUS && !mSign {
        mSign := true;
      } else {
        error := true;
      }
    }

    /** The end of the first line. */
    method EndHead(ch: byte) returns (error: bool, done: bool)
      requires Valid() && mState == HeadLF
      modifies this`mState, this`mStringLen, this`mStringCnt, this`mDepth, mArrayNum, mElementCnt
      ensures Steps(ch, error, done)
    {
      error, done := false, false;
      if ch != LF {
        error := true;
        return;
      }
      match mType {
      case NoReply => error := true;
      case StringReply =>
        if mInteger < 0 {
          done := true;
        } else {
          mStringLen, mStringCnt, mState := mInteger, 0, StringBody;
        }
      case ArrayReply =>
        if mInteger <= 0 {
          done := true;
        } else {
          mDepth := 0;
          mArrayNum[mDepth] := mInteger;
          mElementCnt[mDepth] := 0;
          mDepth := mDepth + 1;
          mState := ArrayBody;
          assert Stack() == [F.Level(mInteger, 0)];
        }
      case _ => done := true;
      }
      if done { mState := Finished; }
    }

    /** StringBodyLF: the end of a bulk string. */
    method EndBody(ch: byte) returns (error: bool, done: bool)
      requires Valid() && mState == StringBodyLF
      modifies this`mState
      ensures Steps(ch, error, done)
    {
      done := ch == LF;
      error := !done;
      if done { mState := Finished; }
    }

    /** ArrayBody: the first byte of an element. */
    method TagElement(ch: byte) returns (error: bool)
      requires Valid() && mState == ArrayBody
      modifies this`mState, this`mSign, this`mInteger
      ensures Steps(ch, error, false)
    {
      hide F.Levels, F.Close;
      ghost var up := Stack();
      error := false;
      if ch == PLUS || ch == MINUS || ch == COLON {
        mState := LineBody;
      } else if ch == DOLLAR {
        mSign, mInteger, mState := false, 0, SubStringLen;
      } else if ch == STAR {
        mInteger, mState := 0, SubArrayLen;
      } else {
        error := true;
      }
      assert Stack() == up;
    }

    /** The first line of an element that is no string and no array, and the line feed after
        a bulk length. */
    method InLine(ch: byte) returns (error: bool)
      requires Valid() && mState in {LineBody, SubStringLenLF}
      modifies this`mState, this`mStringLen, this`mStringCnt
      ensures Steps(ch, error, false)
    {
      hide F.Levels, F.Close;
      ghost var up := Stack();
      error := false;
      if mState == LineBody {
        if ch == CR { mState := ElementLF; }
      } else {
        mStringLen, mStringCnt := mInteger, 0;
        if ch == LF { mState := SubStringBody; } else { error := true; }
      }
      assert Stack() == up;
    }

    /** The length of a bulk string or an array in an array. */
    method InLength(ch: byte) returns (error: bool)
      requires Valid() && mState in {SubStringLen, SubArrayLen}
      modifies this`mState, this`mSign, this`mInteger
      ensures Steps(ch, error, false)
    {
      hide F.Levels, F.Close;
      ghost var up := Stack();
      error := false;
      if IsDigit(ch) {
        mInteger := mInteger * 10 + (ch - ZERO);
      } else if mState == SubStringLen {
        if ch == CR {
          mState := if mSign then ElementLF else SubStringLenLF;
        } else if ch == MINUS && !mSign {
          mSign := true;
        } else {
          error := true;
        }
      } else if ch == CR {
        mState := if mInteger > 0 then SubArrayLenLF else ElementLF;
      } else {
        error := true;
      }
      assert Stack() == up;
    }

    /** SubArrayLenLF: an array in an array begins. */
    method PushArray(ch: byte) returns (error: bool)
      requires Valid() && mState == SubArrayLenLF
      modifies this`mState, this`mDepth, mArrayNum, mElementCnt
      ensures Steps(ch, error, false)
    {
      ghost var up := Stack();
      error := false;
      if ch == LF {
        if mDepth < F.MAX_ARRAY_DEPTH {
          mArrayNum[mDepth] := mInteger;
          mElementCnt[mDepth] := 0;
          mDepth := mDepth + 1;
          mState := ArrayBody;
          assert Stack() == up + [F.Level(mInteger, 0)];
        } else {
          error := true;
        }
      } else {
        error := true;
      }
    }

    /** The loop of ElementLF: counts an element in the innermost array, and for each array
        that it completes one in the array around it. */
    method CloseArrays() returns (done: bool)
      requires 0 < mDepth <= mArrayNum.Length && mDepth <= mElementCnt.Length && mArrayNum != mElementCnt
      modifies this`mDepth, mElementCnt
      ensures mDepth <= old(mDepth)
      ensures F.Close(old(Stack())) == if done then F.Finished(F.ArrayReply, 0) else F.Element(Stack())
    {
      ghost var up := Stack();
      done := false;
      assert up[..mDepth] == up;
      while true
        invariant 0 < mDepth <= |up| && Stack() == up[..mDepth]
        invariant F.Close(up) == F.Close(up[..mDepth])
        decreases mDepth
      {
        ghost var top := Stack()[mDepth - 1];
        ghost var rest := up[..mDepth - 1];
        assert up[..mDepth][..mDepth - 1] == rest;
        mElementCnt[mDepth - 1] := mElementCnt[mDepth - 1] + 1;
        if mElementCnt[mDepth - 1] == mArrayNum[mDepth - 1] {
          mDepth := mDepth - 1;
          assert Stack() == rest;
          if mDepth == 0 {
            return true;
          }
        } else {
          assert Stack() == rest + [F.Level(top.num, top.cnt + 1)];
          return;
        }
      }
    }

    /** ElementLF: an element ends. */
    method EndElement(ch: byte) returns (error: bool, done: bool)
      requires Valid() && mState == ElementLF
      modifies this`mState, this`mDepth, mElementCnt
      ensures Steps(ch, error, done)
    {
      hide F.Close;
      error, done := false, false;
      if ch != LF {
        error := true;
        return;
      }
      F.CloseSound(Stack());
      done := CloseArrays();
      mState := if done then Finished else ArrayBody;
    }

    /** A turn of parse's loop at `cursor`: what is left to run is the run of the rest. */
    twostate predicate Turns(buf: seq<byte>, cursor: nat, next: nat, error: bool, done: bool)
      requires cursor <= |buf| && old(Valid())
      reads this`mType, this`mState, this`mInteger, this`mSign, this`mStringLen, this`mStringCnt, this`mDepth, mArrayNum
      reads mElementCnt
    {
      var r := F.Run(old(View()), buf[cursor..]);
      && cursor < next <= |buf| && (error ==> r.state == F.Failed)
      && (!error ==> Valid() && View() != F.Idle && View() != F.Failed && (done <==> mState == Finished)
                     && r == F.Later(F.Run(View(), buf[next..]), next - cursor))
    }

    lemma BodyView()
      requires Valid() && (mState == StringBody || mState == SubStringBody)
      ensures mDepth <= mArrayNum.Length && mDepth <= mElementCnt.Length
      ensures if mState == StringBody then View().Body? else View().SubBody? && View().up == Stack()
      ensures View().len == mStringLen && 0 <= View().cnt == mStringCnt <= mStringLen
    {
      hide F.Levels;
    }

    /** n bytes of the body are taken. */
    method TakeBody(n: nat)
      requires Valid() && (mState == StringBody || mState == SubStringBody) && mStringCnt + n <= mStringLen
      modifies this`mStringCnt
      ensures old(View().Body? || View().SubBody?) && Valid() && View() == old(View().(cnt := View().cnt + n))
      ensures mStringCnt == old(mStringCnt) + n
    {
      hide F.Levels;
      ghost var up := Stack();
      mStringCnt := mStringCnt + n;
      assert Stack() == up;
    }

    /** The return after the body. */
    method LeaveBody()
      requires Valid() && (mState == StringBody || mState == SubStringBody) && mStringCnt == mStringLen
      modifies this`mState
      ensures old(View().Body? || View().SubBody?) && Valid()
      ensures mState == old(if mState == StringBody then StringBodyLF else ElementLF)
      ensures View() == old(if View().Body? then F.BodyLF else F.ElementLF(View().up))
    {
      hide F.Levels;
      ghost var up := Stack();
      mState := if mState == StringBody then StringBodyLF else ElementLF;
      assert Stack() == up;
    }

    /** StringBody: takes what the buffer has of the body, or the return after it. */
    method StringBytes(buf: seq<byte>, cursor: nat) returns (next: nat, error: bool)
      requires Valid() && mState == StringBody && cursor < |buf|
      modifies this`mState, this`mStringCnt
      ensures Turns(buf, cursor, next, error, false)
    {
      hide F.Run, F.Step, Valid, View;
      BodyView();
      ghost var before := View();
      error := false;
      if mStringCnt == mStringLen {
        RestOfBody(before, buf, cursor);
        next := cursor + 1;
        if buf[cursor] == CR { LeaveBody(); } else { error := true; }
      } else if mStringCnt + (|buf| - cursor) >= mStringLen {
        next := cursor + (mStringLen - mStringCnt);
        SkipIsRun(before, buf, cursor, next - cursor);
        TakeBody(mStringLen - mStringCnt);
      } else {
        SkipIsRun(before, buf, cursor, |buf| - cursor);
        TakeBody(|buf| - cursor);
        next := |buf|;
      }
    }

    /** SubStringBody: takes the rest of the body and the return, or all that the buffer has. */
    method SubStringBytes(buf: seq<byte>, cursor: nat) returns (next: nat, error: bool)
      requires Valid() && mState == SubStringBody && cursor < |buf|
      modifies this`mState, this`mStringCnt
      ensures Turns(buf, cursor, next, error, false)
    {
      hide F.Run, F.Step, Valid, View;
      BodyView();
      ghost var before := View();
      error := false;
      if mStringCnt + (|buf| - cursor) > mStringLen {
        RestOfBody(before, buf, cursor);
        next := cursor + (mStringLen - mStringCnt);
        TakeBody(mStringLen - mStringCnt);
        if buf[next] == CR { LeaveBody(); } else { error := true; }
        next := next + 1;
      } else {
        SkipIsRun(before, buf, cursor, |buf| - cursor);
        TakeBody(|buf| - cursor);
        next := |buf|;
      }
    }

    /** One byte, in any state but a body. */
    method OtherByte(ch: byte) returns (error: bool, done: bool)
      requires Valid() && mState != StringBody && mState != SubStringBody && !F.Over(View())
      modifies this`mType, this`mState, this`mInteger, this`mSign, this`mStringLen, this`mStringCnt, this`mDepth
      modifies mArrayNum, mElementCnt
      ensures Steps(ch, error, done)
    {
      hide F.Step, F.Sound;
      error, done := false, false;
      if mState == Idle {
        error := Tag(ch);
      } else if mState in {StatusHead, ErrorHead, IntegerHead, StringHead, ArrayHead} {
        error := InHead(ch);
      } else if mState == HeadLF {
        error, done := EndHead(ch);
      } else if mState == StringBodyLF {
        error, done := EndBody(ch);
      } else if mState == ArrayBody {
        error := TagElement(ch);
      } else if mState == SubArrayLenLF {
        error := PushArray(ch);
      } else if mState == ElementLF {
        error, done := EndElement(ch);
      } else if mState in {LineBody, SubStringLenLF} {
        error := InLine(ch);
      } else {
        error := InLength(ch);
      }
    }

    method Turn(buf: seq<byte>, cursor: nat) returns (next: nat, error: bool, done: bool)
      requires Valid() && cursor < |buf| && !F.Over(View())
      modifies this`mType, this`mState, this`mInteger, this`mSign, this`mStringLen, this`mStringCnt, this`mDepth
      modifies mArrayNum, mElementCnt
      ensures Turns(buf, cursor, next, error, done)
    {
      hide F.Sound, F.Run;
      done := false;
      if mState == StringBody {
        next, error := StringBytes(buf, cursor);
      } else if mState == SubStringBody {
        next, error := SubStringBytes(buf, cursor);
      } else {
        ghost var before := View();
        RunOne(before, buf, cursor);
        NotIdleAgain(before, buf[cursor], buf[cursor + 1..]);
        error, done := OtherByte(buf[cursor]);
        next := cursor + 1;
      }
    }

    lemma ViewKinds()
      requires Valid()
      ensures mDepth <= mArrayNum.Length && mDepth <= mElementCnt.Length
      ensures (mState == Idle <==> View() == F.Idle) && (mState == Finished <==> View().Finished?)
      ensures HeadState(View()) <==> mState in {Idle, StatusHead, ErrorHead, IntegerHead, StringHead, ArrayHead, HeadLF}
    {
      hide F.Sound;
    }

    /** parse: takes bytes of buffer number `id` from `pos0` on, until the reply is over or
        the buffer ends. A parser that was not reset after a reply takes no byte. */
    method Parse(buf: seq<byte>, pos0: nat, id: nat) returns (result: Result, pos: nat)
      requires Valid() && View() != F.Failed && pos0 <= |buf|
      modifies this, mArrayNum, mElementCnt
      ensures old(View()).Finished? ==>
                && Valid() && View() == old(View())
                && (result, pos) == if pos0 < |buf| then (ParseError, pos0) else (Partial, |buf| + 1)
      ensures var r := F.Run(old(View()), buf[pos0..]);
              if old(View()).Finished? then end == if pos0 < |buf| then old(end) else Place(id, pos)
              else if r.state.Failed? then result == ParseError && pos == pos0
              else Valid() && View() == r.state && end == Place(id, pos)
                   && (if r.state.Finished? then result == Complete && pos == pos0 + r.used
                       else result == (if HeadState(r.state) then Normal else Partial) && pos == |buf| + 1)
      ensures begin == if old(View()) == F.Idle && pos0 < |buf| then Place(id, pos0) else old(begin)
    {
      hide F.Sound, F.Run, F.Step, View, Valid;
      ViewKinds();
      pos := pos0;
      var cursor := pos0;
      ghost var start := View();
      while cursor < |buf|
        invariant pos0 <= cursor <= |buf| && pos == pos0
        invariant mDepth <= mArrayNum.Length && mDepth <= mElementCnt.Length
        invariant Valid() && View() != F.Failed
        invariant start.Finished? || View().Finished? ==> cursor == pos0 && end == old(end)
        invariant F.Run(start, buf[pos0..]) == F.Later(F.Run(View(), buf[cursor..]), cursor - pos0)
        invariant begin == if start == F.Idle && pos0 < cursor then Place(id, pos0) else old(begin)
        invariant if cursor == pos0 then View() == start else View() != F.Idle
      {
        ViewKinds();
        if mState == Finished {
          return ParseError, pos;
        }
        if mState == Idle {
          begin := Place(id, cursor);
        }
        var next, error, done := Turn(buf, cursor);
        if error {
          return ParseError, pos;
        }
        cursor := next;
        ViewKinds();
        if done {
          RunOver(View(), buf[cursor..]);
          pos := cursor;
          end := Place(id, pos);
          return Complete, pos;
        }
      }
      ViewKinds();
      RunOver(View(), buf[cursor..]);
      pos := cursor + 1;
      end := Place(id, pos);
      result := if mState in {Idle, StatusHead, ErrorHead, IntegerHead, StringHead, ArrayHead, HeadLF} then Normal
          else Partial;
    }
  }

  lemma RunOver(s: F.Parse, bytes: seq<byte>)
    requires bytes == [] || F.Over(s)
    ensures F.Run(s, bytes) == F.Outcome(s, 0)
  {
  }

  lemma NotIdleAgain(s: F.Parse, ch: byte, bytes: seq<byte>)
    ensures F.Step(s, ch) != F.Idle
    ensures F.Step(s, ch) == F.Failed ==> F.Run(F.Step(s, ch), bytes).state == F.Failed
  {
    if s.ElementLF? { NeverIdle(s.up); }
  }

  lemma {:induction false} NeverIdle(up: seq<F.Level>)
    ensures F.Close(up) != F.Idle
    decreases |up|
  {
    if up != [] { NeverIdle(up[..|up| - 1]); }
  }

  /** The states up to HeadLF. */
  predicate HeadState(s: F.Parse) { s.Idle? || s.Line? || (s.Number? && s.use.Head?) || s.HeadLF? }

  lemma RunOne(s: F.Parse, buf: seq<byte>, cursor: nat)
    requires cursor < |buf| && !F.Over(s)
    ensures F.Run(s, buf[cursor..]) == F.Later(F.Run(F.Step(s, buf[cursor]), buf[cursor + 1..]), 1)
  {
    assert buf[cursor..][1..] == buf[cursor + 1..];
  }

  /** The rest of a body, and the byte after it. */
  lemma RestOfBody(s: F.Parse, buf: seq<byte>, cursor: nat)
    requires (s.Body? || s.SubBody?) && s.cnt <= s.len && cursor + (s.len - s.cnt) < |buf|
    ensures var next := cursor + (s.len - s.cnt);
            var r := F.Run(s, buf[cursor..]);
            if buf[next] != CR then r.state == F.Failed
            else r == F.Later(F.Run(if s.Body? then F.BodyLF else F.ElementLF(s.up), buf[next + 1..]),
                           next + 1 - cursor)
  {
    hide F.Run;
    var next, full := cursor + (s.len - s.cnt), s.(cnt := s.len);
    SkipIsRun(s, buf, cursor, next - cursor);
    RunOne(full, buf, next);
    NotIdleAgain(full, buf[next], buf[next + 1..]);
  }

  lemma SkipIsRun(s: F.Parse, buf: seq<byte>, cursor: nat, n: nat)
    requires (s.Body? || s.SubBody?) && s.cnt + n <= s.len && cursor + n <= |buf|
    ensures F.Run(s, buf[cursor..]) == F.Later(F.Run(s.(cnt := s.cnt + n), buf[cursor + n..]), n)
  {
    hide F.Run, F.Step;
    var b := buf[cursor..cursor + n];
    F.ReadBody(s, b);
    F.RunSplit(s, b, buf[cursor + n..]);
    CutAt(buf, cursor, n);
  }

  lemma CutAt(buf: seq<byte>, cursor: nat, n: nat)
    requires cursor + n <= |buf|
    ensures buf[cursor..] == buf[cursor..cursor + n] + buf[cursor + n..]
  {
  }
}
