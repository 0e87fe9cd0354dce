/** Places in the buffers that a connection reads into: a buffer's number, and a position. */
module Places {
  import opened Bytes
  import opened Buffers

  /** A byte of the input: the buffer's number and the position in it. */
  datatype Place = Place(buf: nat, pos: nat)

  /** How many bytes stand before it. */
  function Offset(bufs: seq<seq<byte>>, at: Place): nat
    requires at.buf < |bufs|
  {
    Base(bufs, at.buf) + at.pos
  }

  /** Not behind the last byte. */
  ghost predicate Inside(bufs: seq<seq<byte>>, p: Place) { p.buf < |bufs| && Offset(bufs, p) <= |Flat(bufs)| }

  /** The bytes from one place to another. */
  function Between(bufs: seq<seq<byte>>, b: Place, e: Place): seq<byte>
  {
    if b.buf < |bufs| && e.buf < |bufs| && Offset(bufs, b) <= Offset(bufs, e) <= |Flat(bufs)|
    then Flat(bufs)[Offset(bufs, b)..Offset(bufs, e)] else []
  }

  lemma OneBuffer(bytes: seq<byte>)
    ensures Flat([bytes]) == bytes
  {
    assert Flat([bytes]) == bytes + Flat([]);
  }

  /** More bytes in the last buffer, or a new one, leave all places where they were. */
  ghost predicate Grows(bufs: seq<seq<byte>>, more: seq<seq<byte>>)
  {
    |bufs| <= |more| && Flat(bufs) <= Flat(more) && forall i :: 0 <= i < |bufs| ==> Base(bufs, i) == Base(more, i)
  }

  lemma BetweenGrows(bufs: seq<seq<byte>>, more: seq<seq<byte>>, b: Place, e: Place)
    requires Grows(bufs, more) && Inside(bufs, b) && Inside(bufs, e)
    ensures Inside(more, b) && Inside(more, e) && Between(more, b, e) == Between(bufs, b, e)
    ensures Offset(more, b) == Offset(bufs, b) && Offset(more, e) == Offset(bufs, e)
  {
    hide Flat, Base;
    var x, y := Offset(bufs, b), Offset(bufs, e);
    if x <= y { assert Flat(more)[..|Flat(bufs)|][x..y] == Flat(more)[x..y]; }
  }

  lemma GrowLast(bufs: seq<seq<byte>>, bytes: seq<byte>)
    requires bufs != []
    ensures Grows(bufs, bufs[|bufs| - 1 := bufs[|bufs| - 1] + bytes])
    ensures Flat(bufs[|bufs| - 1 := bufs[|bufs| - 1] + bytes]) == Flat(bufs) + bytes
  {
    hide Flat;
    FlatLast(bufs, bytes);
    var more := bufs[|bufs| - 1 := bufs[|bufs| - 1] + bytes];
    forall i | 0 <= i < |bufs| ensures Base(bufs, i) == Base(more, i) {
      assert bufs[..i] == more[..i];
    }
  }

  lemma GrowNew(bufs: seq<seq<byte>>, bytes: seq<byte>)
    ensures Grows(bufs, bufs + [bytes]) && Flat(bufs + [bytes]) == Flat(bufs) + bytes
  {
    hide Flat;
    FlatAppend(bufs, [bytes]);
    assert Flat([bytes]) == bytes by { OneBuffer(bytes); }
    forall i | 0 <= i < |bufs| ensures Base(bufs, i) == Base(bufs + [bytes], i) {
      assert bufs[..i] == (bufs + [bytes])[..i];
    }
  }

  /** The buffers after a read, into the last one or into a new one. */
  function AfterRead(bufs: seq<seq<byte>>, bytes: seq<byte>, newBuf: bool): seq<seq<byte>>
    requires newBuf || bufs != []
  {
    if newBuf then bufs + [bytes] else bufs[|bufs| - 1 := bufs[|bufs| - 1] + bytes]
  }

  lemma AfterReadIs(bufs: seq<seq<byte>>, bytes: seq<byte>, newBuf: bool)
    requires newBuf || bufs != []
    ensures AfterRead(bufs, bytes, newBuf)
         == if newBuf then bufs + [bytes] else bufs[|bufs| - 1 := bufs[|bufs| - 1] + bytes]
  {
  }

  /** What was read stands behind everything else, at the end of the last buffer. */
  lemma ReadGrows(bufs: seq<seq<byte>>, bytes: seq<byte>, newBuf: bool)
    requires newBuf || bufs != []
    ensures var more := AfterRead(bufs, bytes, newBuf);
            var pos := if newBuf then 0 else |bufs[|bufs| - 1]|;
            && Grows(bufs, more) && Flat(more) == Flat(bufs) + bytes && more != []
            && pos <= |more[|more| - 1]| && more[|more| - 1][pos..] == bytes
            && |Flat(bufs)| == Base(more, |more| - 1) + pos
  {
    hide Flat, Grows;
    if newBuf {
      GrowNew(bufs, bytes);
      assert (bufs + [bytes])[..|bufs|] == bufs;
    } else {
      GrowLast(bufs, bytes);
      var n := |bufs| - 1;
      AtEnd(bufs[..n], bufs[n], bytes);
      assert bufs[..n] + [bufs[n]] == bufs && bufs[..n] + [bufs[n] + bytes] == AfterRead(bufs, bytes, newBuf);
    }
  }

  lemma AtEnd(init: seq<seq<byte>>, last: seq<byte>, bytes: seq<byte>)
    ensures var bufs := init + [last + bytes];
            (last + bytes)[|last|..] == bytes && |Flat(init + [last])| == Base(bufs, |init|) + |last|
  {
    FlatAppend(init, [last]);
    OneBuffer(last);
    assert (init + [last + bytes])[..|init|] == init;
  }

  lemma Across(x: seq<byte>, y: seq<byte>, n: nat, m: nat)
    requires n <= |x| && m <= |y|
    ensures (x + y)[|x| - n..|x| + m] == x[|x| - n..] + y[..m]
  {
  }
}
