/** Chained byte buffers, and segments: a begin, a cursor and an end in a chain.
    A place in a chain is judged by its offset in the chain's flattened bytes. */
module Buffers {
  import opened Bytes

  // ----- flattened chains --------------------------------------------------------------

  /** The offset at which buffer i starts. */
  function Base(cs: seq<seq<byte>>, i: nat): nat
    requires i <= |cs|
  {
    |Flat(cs[..i])|
  }

  /** Buffer i's bytes lie at its base; the next buffer starts where it ends. */
  lemma FlatAt(cs: seq<seq<byte>>, i: nat)
    requires i < |cs|
    ensures Base(cs, i + 1) == Base(cs, i) + |cs[i]| <= |Flat(cs)|
    ensures Flat(cs)[Base(cs, i)..Base(cs, i + 1)] == cs[i]
  {
    assert cs == cs[..i] + [cs[i]] + cs[i + 1..] && cs[..i + 1] == cs[..i] + [cs[i]];
    FlatAppend(cs[..i], [cs[i]]);
    FlatAppend(cs[..i + 1], cs[i + 1..]);
    assert Flat([cs[i]]) == cs[i] + Flat([]);
  }

  lemma FlatPiece(cs: seq<seq<byte>>, i: nat, p: nat, q: nat)
    requires i < |cs| && p <= q <= |cs[i]|
    ensures Base(cs, i) + q <= |Flat(cs)|
    ensures Flat(cs)[Base(cs, i) + p..Base(cs, i) + q] == cs[i][p..q]
  {
    FlatAt(cs, i);
    var b := Base(cs, i);
    SubSlice(Flat(cs), b, Base(cs, i + 1), p, q - p);
  }

  lemma BaseMonotone(cs: seq<seq<byte>>, i: nat, j: nat)
    requires i <= j <= |cs|
    ensures Base(cs, i) <= Base(cs, j) <= |Flat(cs)|
    decreases j - i
  {
    if i < j {
      FlatAt(cs, i);
      BaseMonotone(cs, i + 1, j);
    } else {
      assert cs == cs[..i] + cs[i..];
      FlatAppend(cs[..i], cs[i..]);
    }
  }

  // ----- buffers ---------------------------------------------------------------------------

  class Buffer {
    const dat: array<byte>
    var len: nat
    var next: Buffer?

    constructor (size: nat)
      ensures fresh(dat) && dat.Length == size && len == 0 && next == null
    {
      dat := new byte[size](_ => NUL);
      len := 0;
      next := null;
    }
  }

  ghost function Arrays(bs: seq<Buffer>): set<array<byte>> { set b | b in bs :: b.dat }

  lemma ArraysMore(bs: seq<Buffer>, b: Buffer)
    ensures Arrays(bs + [b]) == Arrays(bs) + {b.dat}
  {
  }

  lemma NoArrays()
    ensures Arrays([]) == {}
  {
  }

  /** Distinct buffers over distinct arrays, each linked to the next. */
  ghost predicate Chain(bs: seq<Buffer>)
    reads bs
  {
    && (forall i :: 0 <= i < |bs| ==> bs[i].len <= bs[i].dat.Length)
    && (forall i, j :: 0 <= i < j < |bs| ==> bs[i] != bs[j] && bs[i].dat != bs[j].dat)
    && (forall i :: 0 <= i < |bs| - 1 ==> bs[i].next == bs[i + 1])
  }

  ghost predicate Distinct(bs: seq<Buffer>) { forall i, j :: 0 <= i < j < |bs| ==> bs[i] != bs[j] }

  lemma SameBuffer(bs: seq<Buffer>, i: nat, j: nat)
    requires Distinct(bs) && i < |bs| && j < |bs|
    ensures bs[i] == bs[j] <==> i == j
  {
  }

  ghost function Content(b: Buffer): seq<byte>
    requires b.len <= b.dat.Length
    reads b`len, b.dat
  {
    b.dat[..b.len]
  }

  /** The bytes in each buffer. */
  ghost function Data(bs: seq<Buffer>): (cs: seq<seq<byte>>)
    requires Chain(bs)
    reads bs, Arrays(bs)
    ensures |cs| == |bs|
  {
    seq(|bs|, i requires 0 <= i < |bs| reads bs, Arrays(bs)
             requires bs[i].len <= bs[i].dat.Length => bs[i].dat[..bs[i].len])
  }

  /** memcpy to the tail, then use(n). */
  method WriteTail(buf: Buffer, bytes: seq<byte>, ghost bs: seq<Buffer>)
    requires Chain(bs) && bs != [] && bs[|bs| - 1] == buf && buf.len + |bytes| <= buf.dat.Length
    modifies buf`len, buf.dat
    ensures buf.len == old(buf.len) + |bytes| && Chain(bs) && buf.len <= buf.dat.Length
    ensures old(Content(buf)) <= Content(buf)
    ensures Flat(Data(bs)) == old(Flat(Data(bs))) + bytes
    ensures Data(bs)[..|bs| - 1] == old(Data(bs))[..|bs| - 1]
  {
    ghost var before := Data(bs);
    forall i | 0 <= i < |bytes| {
      buf.dat[buf.len + i] := bytes[i];
    }
    buf.len := buf.len + |bytes|;
    ghost var n := |bs| - 1;
    assert buf.dat[..buf.len] == before[n] + bytes;
    forall i | 0 <= i < n ensures bs[i].dat[..bs[i].len] == before[i] { assert bs[i].dat != bs[n].dat; }
    assert Data(bs) == before[n := before[n] + bytes] by { hide Flat; }
    FlatLast(before, bytes);
  }

  /** A new buffer is linked behind the last one. */
  method Extend(buf: Buffer, ghost bs: seq<Buffer>) returns (nbuf: Buffer)
    requires Chain(bs) && bs != [] && bs[|bs| - 1] == buf
    modifies buf`next
    ensures fresh(nbuf) && fresh(nbuf.dat) && Chain(bs + [nbuf]) && nbuf.next == null && nbuf.len == 0
    ensures nbuf.dat.Length == buf.dat.Length && buf.next == nbuf
    ensures Flat(Data(bs + [nbuf])) == old(Flat(Data(bs)))
    ensures Data(bs + [nbuf])[..|bs|] == old(Data(bs))
  {
    hide Flat;
    ghost var before := Data(bs);
    nbuf := new Buffer(buf.dat.Length);
    buf.next := nbuf;
    assert Data(bs + [nbuf]) == before + [[]];
    FlatEmptyLast(before);
  }

  lemma Room(bs: seq<Buffer>)
    requires Chain(bs) && bs != []
    ensures bs[|bs| - 1].len <= bs[|bs| - 1].dat.Length
  {
  }

  /** A new last buffer of a chain that began as bs. */
  method Link(buf: Buffer, ghost more: seq<Buffer>, ghost all: seq<Buffer>, ghost bs: seq<Buffer>)
    returns (nbuf: Buffer, ghost more': seq<Buffer>, ghost all': seq<Buffer>)
    requires all == bs + more && bs != [] && Chain(all) && all[|all| - 1] == buf && buf.len > 0
    requires NoGap(Data(all), |bs| - 1)
    modifies buf`next
    ensures fresh(nbuf) && fresh(nbuf.dat) && more' == more + [nbuf] && all' == bs + more' && all'[|all'| - 1] == nbuf
    ensures Chain(all')
    ensures nbuf.dat.Length == buf.dat.Length && nbuf.next == null && nbuf.len == 0
    ensures Flat(Data(all')) == old(Flat(Data(all))) && Data(all')[..|bs| - 1] == old(Data(all))[..|bs| - 1]
    ensures NoGap(Data(all'), |bs| - 1)
  {
    hide *;
    LastData(all);
    ghost var before := Data(all);
    nbuf := Extend(buf, all);
    more', all' := more + [nbuf], all + [nbuf];
    assert all + [nbuf] == bs + (more + [nbuf]);
    ghost var d := Data(all');
    assert d[..|bs| - 1] == d[..|all|][..|bs| - 1];
    GapExtended(before, d, |bs| - 1);
  }

  lemma LastData(bs: seq<Buffer>)
    requires Chain(bs) && bs != []
    ensures |Data(bs)[|bs| - 1]| == bs[|bs| - 1].len
  {
  }

  lemma GapExtended(cs: seq<seq<byte>>, ds: seq<seq<byte>>, n: nat)
    requires cs != [] && |ds| == |cs| + 1 && ds[..|cs|] == cs && cs[|cs| - 1] != [] && NoGap(cs, n)
    ensures NoGap(ds, n)
  {
    forall i | n < i < |ds| - 1 ensures ds[i] != [] { assert ds[i] == ds[..|cs|][i]; }
  }

  lemma GapSame(cs: seq<seq<byte>>, ds: seq<seq<byte>>, n: nat)
    requires cs != [] && |ds| == |cs| && ds[..|cs| - 1] == cs[..|cs| - 1] && NoGap(cs, n)
    ensures NoGap(ds, n)
  {
    forall i | n < i < |ds| - 1 ensures ds[i] != [] { assert ds[i] == ds[..|cs| - 1][i] == cs[..|cs| - 1][i]; }
  }

  /** No buffer between the n-th and the last one is empty. */
  ghost predicate NoGap(cs: seq<seq<byte>>, n: nat) { forall i :: n < i < |cs| - 1 ==> cs[i] != [] }

  lemma NoGapYet(cs: seq<seq<byte>>)
    requires cs != []
    ensures NoGap(cs, |cs| - 1)
  {
  }

  /** The chain's last buffer; nothing is linked behind it. */
  ghost predicate IsTail(bs: seq<Buffer>, buf: Buffer)
    reads bs, buf
  {
    Chain(bs) && bs != [] && bs[|bs| - 1] == buf && buf.next == null && buf.dat.Length > 0
  }

  lemma TailParts(bs: seq<Buffer>, buf: Buffer)
    ensures IsTail(bs, buf) <==> Chain(bs) && bs != [] && bs[|bs| - 1] == buf && buf.next == null && buf.dat.Length > 0
  {
  }

  lemma MoreDone(before: seq<byte>, done: seq<byte>, rest: seq<byte>, n: nat)
    requires n <= |rest|
    ensures before + done + rest[..n] == before + (done + rest[..n]) && done + rest[..n] + rest[n..] == done + rest
  {
    assert rest[..n] + rest[n..] == rest;
  }

  /** Buffer::append: fills this buffer, then new ones of the same size linked to it. */
  method Append(buf: Buffer, data: seq<byte>, ghost bs: seq<Buffer>) returns (last: Buffer, ghost more: seq<Buffer>)
    requires IsTail(bs, buf)
    modifies buf, buf.dat
    ensures fresh(more) && fresh(Arrays(more)) && IsTail(bs + more, last)
    ensures (last == buf || (fresh(last) && fresh(last.dat)))
    ensures old(buf.len) <= buf.len <= buf.dat.Length && old(Content(buf)) <= Content(buf)
    ensures Flat(Data(bs + more)) == old(Flat(Data(bs))) + data
    ensures Data(bs + more)[..|bs| - 1] == old(Data(bs))[..|bs| - 1]
    ensures NoGap(Data(bs + more), |bs| - 1)
    ensures if data != [] then last.len > 0 else more == []
  {
    hide *;
    TailParts(bs, buf);
    Room(bs);
    ghost var was := Content(buf);
    last, more := buf, [];
    NoArrays();
    assert bs + more == bs;
    ghost var all := bs;
    NoGapYet(Data(bs));
    var rest := data;
    ghost var done: seq<byte> := [];
    while |rest| > 0
      invariant done + rest == data && all == bs + more
      invariant fresh(more) && fresh(Arrays(more)) && Chain(all) && last == all[|all| - 1]
      invariant last == buf || (fresh(last) && fresh(last.dat))
      invariant last.dat.Length == buf.dat.Length && last.next == null
      invariant old(buf.len) <= buf.len <= buf.dat.Length && was <= Content(buf)
      invariant Flat(Data(all)) == old(Flat(Data(bs))) + done
      invariant Data(all)[..|bs| - 1] == old(Data(bs))[..|bs| - 1] && NoGap(Data(all), |bs| - 1)
      invariant (done != [] && rest == [] ==> last.len > 0) && (done == [] && rest == [] ==> more == [])
      decreases |rest|, if last.len == last.dat.Length then 1 else 0
    {
      Room(all);
      var room := last.dat.Length - last.len;
      var n := if |rest| <= room then |rest| else room;
      MoreDone(old(Flat(Data(bs))), done, rest, n);
      ghost var before := Data(all);
      WriteTail(last, rest[..n], all);
      GapSame(before, Data(all), |bs| - 1);
      done := done + rest[..n];
      rest := rest[n..];
      if |rest| > 0 {
        ghost var most := more;
        last, more, all := Link(last, more, all, bs);
        ArraysMore(most, last);
      }
    }
    TailParts(bs + more, last);
  }

  lemma SubSlice(s: seq<byte>, b: nat, e: nat, off: nat, n: nat)
    requires b + off + n <= e <= |s|
    ensures s[b..e][off..off + n] == s[b + off..b + off + n]
  {
    var t := s[b..e];
    var x, y := t[off..off + n], s[b + off..b + off + n];
    forall k | 0 <= k < n ensures x[k] == y[k] {
      assert t[off + k] == s[b + off + k];
    }
  }

  lemma StartOfRest(s: seq<byte>, from: nat, n: nat)
    requires from + n <= |s|
    ensures s[from..from + n] <= s[from..]
  {
  }

  // ----- segments ------------------------------------------------------------------------------

  /** The chain holds these bytes, buffer by buffer; its last buffer may hold more. */
  ghost predicate Holds(bs: seq<Buffer>, cs: seq<seq<byte>>)
    reads bs, Arrays(bs)
  {
    && Chain(bs) && |cs| == |bs|
    && forall i :: 0 <= i < |bs| ==> cs[i] <= Content(bs[i]) && (i + 1 < |bs| ==> cs[i] == Content(bs[i]))
  }

  lemma HoldsApart(bs: seq<Buffer>, cs: seq<seq<byte>>, s: Segment)
    ensures s !in set b | b in bs :: b as object
    ensures s !in set a | a in Arrays(bs) :: a as object
  {
  }

  /** What the chain says about buffer i. */
  lemma HeldAt(bs: seq<Buffer>, cs: seq<seq<byte>>, i: nat)
    requires Holds(bs, cs) && i < |bs|
    ensures |cs| == |bs| && |cs[i]| <= bs[i].len <= bs[i].dat.Length && cs[i] == bs[i].dat[..|cs[i]|]
    ensures i + 1 < |bs| ==> bs[i].len == |cs[i]| && bs[i].next == bs[i + 1]
  {
  }

  lemma ArrayStretch(d: array<byte>, n: nat, from: nat, to: nat)
    requires from <= to <= n <= d.Length
    ensures d[..n][from..to] == d[from..to]
  {
  }

  /** What Segment::fill puts in one IOVec: bytes, and the place they start at. */
  datatype Piece = Piece(dat: seq<byte>, buf: Buffer, pos: nat)

  function Total(ps: seq<Piece>): nat
  {
    if ps == [] then 0 else Total(ps[..|ps| - 1]) + |ps[|ps| - 1].dat|
  }

  function Max(a: int, b: int): int { if a < b then b else a }

  lemma TotalSnoc(ps: seq<Piece>, p: Piece)
    ensures Total(ps + [p]) == Total(ps) + |p.dat|
  {
    assert (ps + [p])[..|ps|] == ps;
  }

  /** Some buffer between bi and ei is `buf`, and `pos` in it is at offset `at` of the chain. */
  ghost predicate PlaceIn(chain: seq<Buffer>, cs: seq<seq<byte>>, bi: nat, ei: nat, at: int, buf: Buffer, pos: nat)
    requires bi <= ei < |chain| == |cs|
  {
    exists i :: bi <= i <= ei && chain[i] == buf && pos <= |cs[i]| && Base(cs, i) + pos == at
  }

  class Segment {
    var bBuf: Buffer?
    var bPos: nat
    var cBuf: Buffer?
    var cPos: nat
    var eBuf: Buffer?
    var ePos: nat

    // the chain the segment lies in, its bytes, and where the three places are
    ghost var chain: seq<Buffer>
    ghost var cs: seq<seq<byte>>
    ghost var bi: nat
    ghost var ci: nat
    ghost var ei: nat

    /** The places are in the chain, in order, and no buffer after the first is without a
        byte of the segment. */
    ghost predicate Placed()
      reads this
    {
      && |cs| == |chain| && bi <= ci <= ei < |chain|
      && bBuf == chain[bi] && cBuf == chain[ci] && eBuf == chain[ei]
      && bPos <= |cs[bi]| && cPos <= |cs[ci]| && ePos <= |cs[ei]|
      && Base(cs, bi) + bPos <= Base(cs, ci) + cPos <= Base(cs, ei) + ePos <= |Flat(cs)|
      && (bi < ei ==> ePos > 0) && (forall i :: bi < i < ei ==> cs[i] != [])
      && Distinct(chain)
    }

    ghost predicate Cleared()
      reads this
    {
      cBuf == null && eBuf == null && bPos == cPos == ePos == 0 && chain == []
    }

    ghost predicate Valid()
      reads this, chain, Arrays(chain)
    {
      if bBuf == null then Cleared() else Placed() && Holds(chain, cs)
    }

    ghost predicate InPlace()
      reads this
    {
      if bBuf == null then Cleared() else Placed()
    }

    ghost function Bytes(): seq<byte>
      requires InPlace()
      reads this
    {
      if bBuf == null then [] else Flat(cs)[Base(cs, bi) + bPos..Base(cs, ei) + ePos]
    }

    ghost function Cur(): (n: nat)
      requires InPlace()
      reads this
      ensures n <= |Bytes()|
    {
      if bBuf == null then 0 else Base(cs, ci) + cPos - (Base(cs, bi) + bPos)
    }

    ghost function Rest(): seq<byte>
      requires InPlace()
      reads this
    {
      Bytes()[Cur()..]
    }

    /** The place (buf, pos) of the chain is at offset `off` of the segment's bytes. */
    ghost predicate PlaceAt(buf: Buffer, pos: nat, off: nat)
      requires InPlace()
      reads this
    {
      bBuf != null && PlaceIn(chain, cs, bi, ei, Base(cs, bi) + bPos + off, buf, pos)
    }

    ghost predicate IsPlace(i: nat, pos: nat, off: nat)
      requires InPlace() && bBuf != null && bi <= i <= ei
      reads this
    {
      pos <= |cs[i]| && Base(cs, i) + pos == Base(cs, bi) + bPos + off
    }

    /** The piece's bytes are those from offset `off` on, and so is its place. */
    ghost predicate PieceAt(p: Piece, off: nat)
      requires InPlace()
      reads this
    {
      off + |p.dat| <= |Bytes()| && p.dat == Bytes()[off..off + |p.dat|] && PlaceAt(p.buf, p.pos, off)
    }

    constructor ()
      ensures Valid() && bBuf == null
    {
      bBuf, bPos, cBuf, cPos, eBuf, ePos := null, 0, null, 0, null, 0;
      chain, cs := [], [];
    }

    /** A stretch of one buffer, inside the segment. */
    lemma PieceOf(i: nat, p: nat, q: nat)
      requires Placed() && bi <= i <= ei && p <= q <= |cs[i]|
      requires Base(cs, bi) + bPos <= Base(cs, i) + p && Base(cs, i) + q <= Base(cs, ei) + ePos
      ensures var off := Base(cs, i) + p - (Base(cs, bi) + bPos);
              off + (q - p) <= |Bytes()| && cs[i][p..q] == Bytes()[off..off + (q - p)] && IsPlace(i, p, off)
    {
      hide Flat, Base, Distinct;
      FlatPiece(cs, i, p, q);
      var b := Base(cs, bi) + bPos;
      SubSlice(Flat(cs), b, Base(cs, ei) + ePos, Base(cs, i) + p - b, q - p);
    }

    /** Consecutive pieces of the segment, the first one at offset `off`. */
    ghost predicate Pieces(vecs: seq<Piece>, off: nat)
      requires InPlace()
      reads this
    {
      forall k :: 0 <= k < |vecs| ==> PieceAt(vecs[k], off + Total(vecs[..k]))
    }

    lemma OneMorePiece(vecs: seq<Piece>, off: nat, p: Piece)
      requires InPlace() && Pieces(vecs, off) && PieceAt(p, off + Total(vecs))
      ensures Pieces(vecs + [p], off) && Total(vecs + [p]) == Total(vecs) + |p.dat|
    {
      hide PieceAt, Placed, Total;
      var all := vecs + [p];
      assert all[..|vecs|] == vecs;
      TotalSnoc(vecs, p);
      forall k | 0 <= k < |all| ensures PieceAt(all[k], off + Total(all[..k])) {
        if k < |vecs| { assert all[..k] == vecs[..k] && all[k] == vecs[k]; }
      }
    }

    /** Between two buffers of the segment, the next one starts where this one ends. */
    lemma NextBuffer(i: nat)
      requires Placed() && bi <= i < ei
      ensures Base(cs, i + 1) == Base(cs, i) + |cs[i]|
      ensures Base(cs, i + 1) < Base(cs, ei) + ePos
    {
      FlatAt(cs, i);
      BaseMonotone(cs, i + 1, ei);
    }

    /** Segment::fill: at most `max` pieces of what is left, in order. `all` says that
        they reach the end of the segment. */
    method Fill(max: nat) returns (vecs: seq<Piece>, all: bool)
      requires Valid()
      ensures |vecs| <= max
      ensures Cur() + Total(vecs) <= |Bytes()|
      ensures Pieces(vecs, Cur())
      ensures all ==> Total(vecs) == |Rest()|
      ensures !all ==> |vecs| == max && (Rest() != [] ==> Total(vecs) < |Rest()|)
      ensures max > 0 && Rest() != [] ==> vecs != []
      ensures all && vecs != [] ==> vecs[|vecs| - 1].dat != []
      ensures forall k :: 0 < k < |vecs| ==> vecs[k].dat != []
    {
      hide Flat, Base, Pieces, PieceAt, Placed, Holds, At, Chain, Distinct, Total;
      vecs, all := [], false;
      FillStart();
      if bBuf == null {
        all := max > 0;
        return;
      }
      var pBuf: Buffer, pPos: nat := cBuf, cPos;
      ghost var pi := ci;
      while |vecs| < max && !(pBuf == eBuf && pPos == ePos)
        invariant |vecs| <= max && !all && (pi == ci ==> vecs == []) && forall k :: 0 < k < |vecs| ==> vecs[k].dat != []
        invariant pi >= ci && Holds(chain, cs) && At(pi, pBuf, pPos, Total(vecs)) && Pieces(vecs, Cur())
        decreases ei - pi
      {
        FillStep(pi, pBuf, pPos, vecs);
        var last := pBuf == eBuf;
        var end := if last then ePos else pBuf.len;
        vecs := vecs + [Piece(pBuf.dat[pPos..end], pBuf, pPos)];
        if last {
          all := true;
          return;
        }
        pBuf, pPos := pBuf.next, 0;
        pi := pi + 1;
      }
      FillEnd(pi, pBuf, pPos, vecs);
      if |vecs| < max && |vecs| == 0 {
        all := true;
      }
    }

    /** The running place of Fill, n bytes after the cursor. */
    ghost predicate At(pi: nat, pBuf: Buffer?, pPos: nat, n: nat)
      reads this
    {
      && bBuf != null && Placed() && ci <= pi <= ei && pBuf == chain[pi] && pPos <= |cs[pi]|
      && Base(cs, pi) + pPos == Base(cs, ci) + cPos + n <= Base(cs, ei) + ePos
      && (pi > ci ==> pPos == 0) && (pi == ci ==> pPos == cPos && n == 0)
    }

    lemma FillStart()
      requires Valid()
      ensures Pieces([], Cur()) && Total([]) == 0
      ensures bBuf != null ==> Placed() && Holds(chain, cs) && cBuf != null && At(ci, cBuf, cPos, 0)
      ensures bBuf == null ==> Rest() == []
    {
      hide Flat, Distinct;
    }

    lemma FillStep(pi: nat, pBuf: Buffer, pPos: nat, vecs: seq<Piece>)
      requires InPlace() && Holds(chain, cs) && At(pi, pBuf, pPos, Total(vecs)) && Pieces(vecs, Cur())
      requires !(pBuf == eBuf && pPos == ePos)
      ensures pBuf.len <= pBuf.dat.Length && pPos <= pBuf.len && pi <= ei
      ensures pBuf == eBuf ==> pPos <= ePos <= pBuf.len
      ensures pi > ci ==> pPos < if pBuf == eBuf then ePos else pBuf.len
      ensures var end := if pBuf == eBuf then ePos else pBuf.len;
              var all := vecs + [Piece(pBuf.dat[pPos..end], pBuf, pPos)];
              && Pieces(all, Cur())
              && (if pBuf == eBuf then Total(all) == |Rest()| && pPos < end
                  else pi < ei && pBuf.next != null && At(pi + 1, pBuf.next, 0, Total(all)))
    {
      hide Flat, Base, Pieces, PieceAt, Distinct, Holds, Chain, Total, Bytes, Rest, Cur, At;
      FillPlace(pi, pBuf, pPos, Total(vecs));
      var end := if pi == ei then ePos else pBuf.len;
      var p := Piece(pBuf.dat[pPos..end], pBuf, pPos);
      PieceHere(p, pi, pPos, end, Cur() + Total(vecs));
      OneMorePiece(vecs, Cur(), p);
    }

    /** The running place of Fill, and the next one. */
    lemma FillPlace(pi: nat, pBuf: Buffer, pPos: nat, n: nat)
      requires InPlace() && Holds(chain, cs) && At(pi, pBuf, pPos, n) && !(pBuf == eBuf && pPos == ePos)
      ensures Placed() && bi <= pi <= ei && pBuf == chain[pi] && (pBuf == eBuf <==> pi == ei)
      ensures Base(cs, bi) + bPos <= Base(cs, pi) + pPos == Base(cs, bi) + bPos + Cur() + n
      ensures pBuf.len <= pBuf.dat.Length
      ensures var end := if pi == ei then ePos else pBuf.len;
              && (pi > ci ==> pPos < end) && pPos <= end <= |cs[pi]| <= pBuf.len
              && Base(cs, pi) + end <= Base(cs, ei) + ePos
              && (if pi == ei then n + (end - pPos) == |Rest()| && pPos < end
                  else pBuf.next != null && At(pi + 1, pBuf.next, 0, n + (end - pPos)))
    {
      hide Flat, Base, Distinct;
      SameBuffer(chain, pi, ei);
      HeldAt(chain, cs, pi);
      if pi < ei { NextBuffer(pi); }
    }

    lemma FillEnd(pi: nat, pBuf: Buffer?, pPos: nat, vecs: seq<Piece>)
      requires InPlace() && At(pi, pBuf, pPos, Total(vecs))
      ensures Cur() + Total(vecs) <= |Bytes()|
      ensures pBuf == eBuf && pPos == ePos ==> pi == ci && Rest() == []
      ensures Rest() != [] ==> Cur() + Total(vecs) < |Bytes()|
    {
      hide Flat, Base, Distinct;
      SameBuffer(chain, pi, ei);
      BaseMonotone(cs, pi, ei);
    }

    lemma PieceHere(p: Piece, i: nat, from: nat, to: nat, off: nat)
      requires Placed() && Holds(chain, cs) && bi <= i <= ei && from <= to <= |cs[i]|
      requires Base(cs, bi) + bPos <= Base(cs, i) + from && Base(cs, i) + to <= Base(cs, ei) + ePos
      requires p == Piece(chain[i].dat[from..to], chain[i], from)
      requires Base(cs, i) + from == Base(cs, bi) + bPos + off
      ensures PieceAt(p, off)
    {
      hide Flat, Base, Distinct, Holds, Chain;
      PieceOf(i, from, to);
      assert p.dat == cs[i][from..to] by {
        HeldAt(chain, cs, i);
        ArrayStretch(chain[i].dat, |cs[i]|, from, to);
      }
    }

    /** The loop of Segment::use: the place `count` bytes after the cursor. */
    method Locate(count: nat) returns (buf: Buffer?, pos: nat, ghost i: nat)
      requires Valid() && count <= |Rest()|
      ensures Valid()
      ensures bBuf == null ==> buf == null && pos == 0
      ensures bBuf != null ==> ci <= i <= ei && chain[i] == buf && pos <= |cs[i]|
      ensures bBuf != null ==> Base(cs, i) + pos == Base(cs, ci) + cPos + count
    {
      hide Flat, Base, Chain, Holds, Distinct;
      var cnt: int := count;
      buf, pos := cBuf, cPos;
      i := ci;
      while cnt > 0
        invariant bBuf != null ==> buf != null && Holds(chain, cs) && ci <= i <= ei && chain[i] == buf && pos <= |cs[i]|
        invariant bBuf != null && cnt > 0 ==> Base(cs, i) + pos == Base(cs, ci) + cPos + count - cnt
        invariant bBuf != null && cnt <= 0 ==> Base(cs, i) + pos == Base(cs, ci) + cPos + count
        invariant bBuf == null ==> cnt == 0 && buf == null && pos == 0
        decreases cnt > 0, if bBuf == null then 0 else ei - i
      {
        HeldAt(chain, cs, i);
        SameBuffer(chain, i, ei);
        if buf == eBuf {
          pos := pos + cnt;
          if pos > ePos {
            pos := ePos;
          }
          break;
        }
        NextBuffer(i);
        var n := buf.len - pos;
        if n <= cnt {
          buf := buf.next;
          pos := 0;
          i := i + 1;
        } else {
          pos := pos + cnt;
        }
        cnt := cnt - n;
      }
    }

    method MoveCursor(buf: Buffer, pos: nat, ghost i: nat)
      requires Holds(chain, cs)
      modifies this`cBuf, this`cPos, this`ci
      ensures cBuf == buf && cPos == pos && ci == i && Holds(chain, cs)
    {
      HoldsApart(chain, cs, this);
      hide Holds, Chain;
      cBuf, cPos, ci := buf, pos, i;
    }

    /** Segment::use, for at most what is left. */
    method Use(count: nat)
      requires Valid() && count <= |Rest()|
      modifies this`cBuf, this`cPos, this`ci
      ensures Valid() && Bytes() == old(Bytes()) && Cur() == old(Cur()) + count
    {
      hide Flat, Base, Chain, Holds, Distinct;
      var buf, pos, i := Locate(count);
      if buf != null {
        MoveCursor(buf, pos, i);
      }
    }

    /** Segment::seek: to a place of the segment, and `count` bytes on. */
    method Seek(buf: Buffer, pos: nat, count: nat, ghost off: nat)
      requires Valid() && PlaceAt(buf, pos, off) && off + count <= |Bytes()|
      modifies this`cBuf, this`cPos, this`ci
      ensures Valid() && Bytes() == old(Bytes()) && Cur() == off + count
    {
      hide Flat, Base, Chain, Holds, Distinct;
      ghost var i :| bi <= i <= ei && chain[i] == buf && pos <= |cs[i]|
                               && Base(cs, i) + pos == Base(cs, bi) + bPos + off;
      MoveCursor(buf, pos, i);
      Use(count);
    }

    /** Segment::length */
    method Length() returns (len: nat)
      requires Valid()
      ensures len == |Bytes()|
    {
      hide Flat, Base, Chain, Holds, Distinct;
      var buf, pos: nat := bBuf, bPos;
      ghost var i := bi;
      len := 0;
      while buf != null
        invariant bBuf != null ==> buf != null && Holds(chain, cs) && bi <= i <= ei && chain[i] == buf && pos <= |cs[i]|
        invariant bBuf != null ==> Base(cs, i) + pos == Base(cs, bi) + bPos + len <= Base(cs, ei) + ePos
        invariant bBuf == null ==> buf == null && len == 0
        decreases if bBuf == null then 0 else ei - i
      {
        HeldAt(chain, cs, i);
        SameBuffer(chain, i, ei);
        if buf == eBuf {
          len := len + ePos - pos;
          return;
        }
        NextBuffer(i);
        len := len + buf.len - pos;
        buf := buf.next;
        pos := 0;
        i := i + 1;
      }
    }

    /** Segment::get: what is left of the cursor's buffer; false at the end. */
    method Get() returns (dat: seq<byte>, ok: bool)
      requires Valid()
      ensures ok <==> Rest() != []
      ensures if ok then dat <= Rest() else dat == []
    {
      hide Flat, Base, Chain, Holds, Distinct, Placed;
      RestIsEmpty();
      if cBuf == eBuf && cPos >= ePos {
        return [], false;
      }
      RestOfBuffer();
      var end := if cBuf == eBuf then ePos else cBuf.len;
      dat, ok := cBuf.dat[cPos..end], true;
    }

    lemma RestOfBuffer()
      requires Valid() && !(cBuf == eBuf && cPos >= ePos)
      ensures cBuf != null && cBuf.len <= cBuf.dat.Length
      ensures var end := if cBuf == eBuf then ePos else cBuf.len;
              cPos <= end <= cBuf.len && cBuf.dat[cPos..end] <= Rest()
    {
      hide Flat, Base, Distinct;
      SameBuffer(chain, ci, ei);
      HeldAt(chain, cs, ci);
      if ci < ei { NextBuffer(ci); }
      var end := if cBuf == eBuf then ePos else cBuf.len;
      PieceOf(ci, cPos, end);
      ArrayStretch(cBuf.dat, |cs[ci]|, cPos, end);
      StartOfRest(Bytes(), Cur(), end - cPos);
    }

    lemma RestIsEmpty()
      requires InPlace()
      ensures Rest() == [] <==> cBuf == eBuf && cPos >= ePos
    {
      hide Flat, Base, Distinct;
      if bBuf != null {
        SameBuffer(chain, ci, ei);
        if ci < ei { NextBuffer(ci); }
      }
    }

    /** Segment::cut on the way: the begin is at (buf, pos) with `cnt` bytes still to leave,
        and the cursor, if it was before that, is there too. */
    ghost predicate Cutting(cnt: nat, count: nat, i: nat, pos: nat, buf: Buffer, c: nat, cp: nat, cb: Buffer)
      reads this
    {
      && bBuf != null && Placed() && cnt <= count && bi <= i <= c <= ei && chain[i] == buf && chain[c] == cb
      && pos <= |cs[i]| && cp <= |cs[c]| && Base(cs, i) + pos + cnt < Base(cs, ei) + ePos
      && Base(cs, i) + pos == Base(cs, bi) + bPos + count - cnt
      && Base(cs, c) + cp == Max(Base(cs, ci) + cPos, Base(cs, i) + pos)
    }

    /** The bytes of the segment that buffer i has behind `pos`. */
    lemma CutHere(cnt: nat, count: nat, i: nat, pos: nat, buf: Buffer, c: nat, cp: nat, cb: Buffer)
      requires Holds(chain, cs) && Cutting(cnt, count, i, pos, buf, c, cp, cb)
      ensures buf == eBuf <==> i == ei
      ensures cb == buf <==> c == i
      ensures pos <= (if buf == eBuf then ePos else buf.len) && (i < ei ==> buf.len == |cs[i]|)
      ensures i <= ei
    {
      hide Flat, Base, Distinct, Max;
      SameBuffer(chain, i, ei);
      SameBuffer(chain, i, c);
      HeldAt(chain, cs, i);
    }

    /** They are not more than is still to leave: the next buffer is begun. */
    lemma CutLeaves(cnt: nat, count: nat, i: nat, pos: nat, buf: Buffer, c: nat, cp: nat, cb: Buffer)
      requires Holds(chain, cs) && Cutting(cnt, count, i, pos, buf, c, cp, cb)
      requires (if buf == eBuf then ePos else buf.len) - pos <= cnt
      ensures i < ei && buf.next != null && pos <= buf.len
      ensures Cutting(cnt - (buf.len - pos), count, i + 1, 0, buf.next, if cb == buf then i + 1 else c,
                      if cb == buf then 0 else cp, if cb == buf then buf.next else cb)
    {
      hide Flat, Base, Distinct;
      CutHere(cnt, count, i, pos, buf, c, cp, cb);
      HeldAt(chain, cs, i);
      NextBuffer(i);
      if i < c { BaseMonotone(cs, i + 1, c); }
    }

    /** They are more: the segment now begins `cnt` bytes on. */
    lemma CutStops(cnt: nat, count: nat, i: nat, pos: nat, buf: Buffer, c: nat, cp: nat, cb: Buffer)
      requires Holds(chain, cs) && Cutting(cnt, count, i, pos, buf, c, cp, cb)
      requires (if buf == eBuf then ePos else buf.len) - pos > cnt
      ensures Cutting(0, count, i, pos + cnt, buf, c, if cb == buf && cp < pos + cnt then pos + cnt else cp, cb)
    {
      hide Flat, Base, Distinct;
      CutHere(cnt, count, i, pos, buf, c, cp, cb);
      if i < c {
        NextBuffer(i);
        BaseMonotone(cs, i + 1, c);
      }
    }

    /** Where the loop of Segment::cut starts. */
    lemma CutFirst(count: nat)
      requires Valid() && 0 < count < |Bytes()|
      ensures InPlace() && Holds(chain, cs) && bBuf != null && cBuf != null
      ensures Cutting(count, count, bi, bPos, bBuf, ci, cPos, cBuf)
    {
      hide Flat, Base, Chain, Holds, Distinct;
    }

    /** Where it ends. */
    lemma CutLast(count: nat, i: nat, pos: nat, buf: Buffer, c: nat, cp: nat, cb: Buffer)
      requires Holds(chain, cs) && Cutting(0, count, i, pos, buf, c, cp, cb) && 0 < count < |Bytes()|
      ensures Valid() && CutPlace(count, i, pos, buf, c, cp, cb)
    {
      hide Flat, Base, Chain, Holds, Distinct;
    }

    /** The place `count` bytes after the begin, and the cursor's when it is not before that. */
    ghost predicate CutPlace(count: nat, i: nat, pos: nat, buf: Buffer, c: nat, cp: nat, cb: Buffer)
      requires InPlace() && bBuf != null
      reads this
    {
      && bi <= i <= c <= ei && chain[i] == buf && chain[c] == cb && pos <= |cs[i]| && cp <= |cs[c]|
      && Base(cs, i) + pos == Base(cs, bi) + bPos + count
      && Base(cs, c) + cp == Base(cs, bi) + bPos + (if Cur() < count then count else Cur())
    }

    /** The loop of Segment::cut: where the segment begins after `count` bytes less,
        and where a cursor that was before that place ends up. */
    method LocateCut(count: nat) returns (buf: Buffer, pos: nat, cb: Buffer, cp: nat, ghost i: nat, ghost c: nat)
      requires Valid() && 0 < count < |Bytes()|
      ensures Valid() && InPlace() && bBuf != null && CutPlace(count, i, pos, buf, c, cp, cb)
    {
      hide *;
      CutFirst(count);
      var cnt: nat := count;
      buf, pos, cb, cp := bBuf, bPos, cBuf, cPos;
      i, c := bi, ci;
      while true
        invariant InPlace() && Holds(chain, cs) && Cutting(cnt, count, i, pos, buf, c, cp, cb)
        decreases ei - i
      {
        CutHere(cnt, count, i, pos, buf, c, cp, cb);
        var len := (if buf == eBuf then ePos else buf.len) - pos;
        if len <= cnt {
          CutLeaves(cnt, count, i, pos, buf, c, cp, cb);
          cnt := cnt - len;
          if cb == buf {
            cb, cp := buf.next, 0;
            c := i + 1;
          }
          buf, pos := buf.next, 0;
          i := i + 1;
        } else {
          CutStops(cnt, count, i, pos, buf, c, cp, cb);
          pos := pos + cnt;
          if cb == buf && cp < pos {
            cp := pos;
          }
          CutLast(count, i, pos, buf, c, cp, cb);
          return;
        }
      }
    }

    method MovePlaces(buf: Buffer, pos: nat, cb: Buffer, cp: nat, ghost i: nat, ghost c: nat)
      requires Holds(chain, cs)
      modifies this`bBuf, this`bPos, this`bi, this`cBuf, this`cPos, this`ci
      ensures bBuf == buf && bPos == pos && bi == i && cBuf == cb && cPos == cp && ci == c && Holds(chain, cs)
    {
      HoldsApart(chain, cs, this);
      hide Holds, Chain;
      bBuf, bPos, bi := buf, pos, i;
      cBuf, cPos, ci := cb, cp, c;
    }

    method CutAt(buf: Buffer, pos: nat, cb: Buffer, cp: nat, ghost i: nat, ghost c: nat)
      requires Placed() && Holds(chain, cs) && bi <= i <= c <= ei && (i < ei ==> ePos > 0)
      requires chain[i] == buf && chain[c] == cb && pos <= |cs[i]| && cp <= |cs[c]|
      requires Base(cs, i) + pos <= Base(cs, c) + cp <= Base(cs, ei) + ePos
      modifies this`bBuf, this`bPos, this`bi, this`cBuf, this`cPos, this`ci
      ensures Valid() && bBuf != null && Bytes() == old(Flat(cs)[Base(cs, i) + pos..Base(cs, ei) + ePos])
      ensures Cur() == old(Base(cs, c) + cp - (Base(cs, i) + pos))
    {
      hide Flat, Base, Chain, Holds, Distinct;
      MovePlaces(buf, pos, cb, cp, i, c);
    }

    /** Segment::cut, for fewer bytes than there are. */
    method Cut(count: nat)
      requires Valid() && count < |Bytes()|
      modifies this`bBuf, this`bPos, this`bi, this`cBuf, this`cPos, this`ci
      ensures Valid() && Bytes() == old(Bytes())[count..]
      ensures Cur() == if old(Cur()) < count then 0 else old(Cur()) - count
    {
      hide Flat, Base, Chain, Holds, Distinct;
      if count > 0 {
        var buf, pos, cb, cp, i, c := LocateCut(count);
        CutBytes(count, buf, pos, cb, cp, i, c);
        CutAt(buf, pos, cb, cp, i, c);
      }
    }

    /** What the places LocateCut finds make of the segment. */
    lemma CutBytes(count: nat, buf: Buffer, pos: nat, cb: Buffer, cp: nat, i: nat, c: nat)
      requires Placed() && 0 < count < |Bytes()| && CutPlace(count, i, pos, buf, c, cp, cb)
      ensures i < ei ==> ePos > 0
      ensures Base(cs, c) + cp <= Base(cs, ei) + ePos
      ensures Flat(cs)[Base(cs, i) + pos..Base(cs, ei) + ePos] == Bytes()[count..]
    {
      hide Flat, Base, Distinct;
      var b, e := Base(cs, bi) + bPos, Base(cs, ei) + ePos;
      SubSlice(Flat(cs), b, e, count, e - b - count);
    }

    method Place(b: Buffer, p: nat, e: Buffer, q: nat, ghost bs: seq<Buffer>, ghost ds: seq<seq<byte>>, ghost i: nat,
                 ghost j: nat, ghost others: seq<Segment>, ghost chains: set<object>, ghost contents: set<object>)
      requires Holds(bs, ds) && this !in others && AllPlaced(others) && Sound(others) && chains == Chains(others)
      requires contents == Contents(others)
      modifies this
      ensures AllPlaced(others) && Sound(others)
      ensures bBuf == cBuf == b && bPos == cPos == p && eBuf == e && ePos == q
      ensures chain == bs && cs == ds && bi == ci == i && ei == j && Holds(bs, ds)
    {
      HoldsApart(bs, ds, this);
      NoSegment(others, this);
      hide Holds, Chain, Sound, Chains, Contents, AllPlaced;
      SetPlaces(b, p, e, q, bs, ds, i, j);
      assert forall x :: x in others ==> unchanged(x);
      assert unchanged(chains) && unchanged(contents);
    }

    method SetPlaces(b: Buffer, p: nat, e: Buffer, q: nat, ghost bs: seq<Buffer>, ghost ds: seq<seq<byte>>,
                     ghost i: nat, ghost j: nat)
      modifies this
      ensures bBuf == cBuf == b && bPos == cPos == p && eBuf == e && ePos == q
      ensures chain == bs && cs == ds && bi == ci == i && ei == j
    {
      bBuf, bPos, cBuf, cPos, eBuf, ePos := b, p, b, p, e, q;
      chain, cs, bi, ci, ei := bs, ds, i, i, j;
    }

    /** Segment::set: the data is appended to the chain and becomes the segment. Other
        segments may lie in the same buffers. */
    method Set(buf: Buffer, data: seq<byte>, ghost bs: seq<Buffer>, ghost others: seq<Segment>)
      returns (last: Buffer, ghost more: seq<Buffer>)
      requires IsTail(bs, buf) && AllPlaced(others) && Sound(others) && OwnArray(buf, others) && this !in others
      modifies this, buf, buf.dat
      ensures fresh(more) && fresh(Arrays(more)) && IsTail(bs + more, last)
      ensures (last == buf || (fresh(last) && fresh(last.dat)))
      ensures AllPlaced(others) && Sound(others) && OwnArray(last, others)
      ensures Valid() && InPlace() && chain == bs + more && bBuf != null && Bytes() == data && Cur() == 0
    {
      hide *;
      TailParts(bs, buf);
      ghost var n := |bs| - 1;
      ghost var before := Data(bs);
      var pos := buf.len;
      LastPlace(bs, before);
      last, more := AppendBeside(buf, data, bs, others);
      ghost var all := bs + more;
      TailParts(all, last);
      ghost var ds := Data(all);
      LastPlace(all, ds);
      HeldAt(all, ds, n);
      Appended(before, ds, n, pos, data);
      assert NoGap(ds, n);
      Place(buf, pos, last, last.len, all, ds, n, |all| - 1, others, Chains(others), Contents(others));
      PlacedAll(n, pos, data);
    }

    /** The stretch from (n, pos) to the end of the chain, as a segment. */
    lemma PlacedAll(n: nat, pos: nat, data: seq<byte>)
      requires Holds(chain, cs) && Distinct(chain) && |cs| == |chain| && bi == ci == n && n <= ei == |chain| - 1
      requires bBuf == cBuf == chain[n] && eBuf == chain[ei] && bPos == cPos == pos <= |cs[n]| && ePos == |cs[ei]|
      requires (n < ei ==> ePos > 0) && NoGap(cs, n) && Base(cs, n) + pos + |data| == |Flat(cs)| == Base(cs, ei) + ePos
      requires Flat(cs)[Base(cs, n) + pos..|Flat(cs)|] == data
      ensures Valid() && InPlace() && bBuf != null && Bytes() == data && Cur() == 0
    {
      hide Flat, Base, Chain, Holds, Distinct;
    }
  }

  // ----- lists of segments --------------------------------------------------------------------

  ghost predicate AllPlaced(segs: seq<Segment>)
    reads segs
  {
    forall g :: 0 <= g < |segs| ==> segs[g].InPlace()
  }

  ghost function Chains(segs: seq<Segment>): set<object>
    reads segs
  {
    set s, b | s in segs && b in s.chain :: b as object
  }

  ghost function Contents(segs: seq<Segment>): set<object>
    reads segs
  {
    set s, b | s in segs && b in s.chain :: b.dat as object
  }

  lemma NoSegment(segs: seq<Segment>, s: Segment)
    ensures s !in Chains(segs) && s !in Contents(segs)
  {
  }

  ghost predicate Sound(segs: seq<Segment>)
    reads segs, Chains(segs), Contents(segs)
  {
    AllPlaced(segs) && forall s :: s in segs ==>
      (assert forall b :: b in s.chain ==> b in Chains(segs);
       assert forall a :: a in Arrays(s.chain) ==> a in Contents(segs); s.Valid())
  }

  lemma SoundAt(segs: seq<Segment>, g: nat)
    requires Sound(segs) && g < |segs|
    ensures AllPlaced(segs) && segs[g].Valid()
  {
  }

  // ----- buffers that go on filling ----------------------------------------------------------

  /** No other buffer of the segments' chains keeps its bytes in buf's array. */
  ghost predicate OwnArray(buf: Buffer, segs: seq<Segment>)
    reads segs
  {
    forall g, i :: 0 <= g < |segs| && 0 <= i < |segs[g].chain| && segs[g].chain[i] != buf ==>
        segs[g].chain[i].dat != buf.dat
  }

  /** What Holds says about buffer i. */
  ghost predicate HoldsAt(bs: seq<Buffer>, cs: seq<seq<byte>>, i: nat)
    requires i < |bs| == |cs|
    reads bs[i], bs[i].dat
  {
    && bs[i].len <= bs[i].dat.Length && cs[i] <= Content(bs[i])
    && (i + 1 < |bs| ==> cs[i] == Content(bs[i]) && bs[i].next == bs[i + 1])
  }

  ghost predicate Apart(bs: seq<Buffer>)
  {
    forall i, j :: 0 <= i < j < |bs| ==> bs[i] != bs[j] && bs[i].dat != bs[j].dat
  }

  ghost predicate ChainParts(bs: seq<Buffer>, cs: seq<seq<byte>>)
    reads bs, Arrays(bs)
  {
    |cs| == |bs| && Apart(bs) && forall i :: 0 <= i < |bs| ==> HoldsAt(bs, cs, i)
  }

  lemma HoldsParts(bs: seq<Buffer>, cs: seq<seq<byte>>)
    ensures Holds(bs, cs) <==> ChainParts(bs, cs)
  {
    hide Content;
    if |cs| == |bs| && Apart(bs) && forall i :: 0 <= i < |bs| ==> HoldsAt(bs, cs, i) {
      forall i | 0 <= i < |bs| ensures bs[i].len <= bs[i].dat.Length && (i + 1 < |bs| ==> bs[i].next == bs[i + 1]) {
        assert HoldsAt(bs, cs, i);
      }
      assert Chain(bs);
      forall i | 0 <= i < |bs| ensures cs[i] <= Content(bs[i]) && (i + 1 < |bs| ==> cs[i] == Content(bs[i])) {
        assert HoldsAt(bs, cs, i);
      }
    }
  }

  /** If buf is in the chain it ends it, and no more than `was` of it counts. */
  ghost predicate EndsIn(bs: seq<Buffer>, cs: seq<seq<byte>>, buf: Buffer, was: seq<byte>)
  {
    |cs| == |bs| && forall i :: 0 <= i < |bs| && bs[i] == buf ==> i + 1 == |bs| && cs[i] <= was
  }

  lemma OnlyTheEnd(bs: seq<Buffer>, cs: seq<seq<byte>>, buf: Buffer)
    requires ChainParts(bs, cs) && buf.next == null && buf.len <= buf.dat.Length
    ensures EndsIn(bs, cs, buf, Content(buf))
  {
    forall i | 0 <= i < |bs| && bs[i] == buf
      ensures i + 1 == |bs| && cs[i] <= Content(buf)
    {
      assert HoldsAt(bs, cs, i);
    }
  }

  /** A buffer that nothing is linked behind ends its chain, so it may hold more than before. */
  lemma TailMayGrow(bs: seq<Buffer>, cs: seq<seq<byte>>, i: nat, was: seq<byte>)
    requires i + 1 == |bs| == |cs| && bs[i].len <= bs[i].dat.Length && cs[i] <= was <= Content(bs[i])
    ensures HoldsAt(bs, cs, i)
  {
  }

  lemma SoundParts(segs: seq<Segment>)
    requires AllPlaced(segs)
    ensures Sound(segs) <==> forall g :: 0 <= g < |segs| && segs[g].bBuf != null ==> Holds(segs[g].chain, segs[g].cs)
  {
    hide Holds, Segment.Placed;
    if Sound(segs) { forall g | 0 <= g < |segs| ensures segs[g].Valid() { SoundAt(segs, g); } }
    if forall g :: 0 <= g < |segs| && segs[g].bBuf != null ==> Holds(segs[g].chain, segs[g].cs) {
      forall s | s in segs ensures s.Valid() {
        var g :| 0 <= g < |segs| && segs[g] == s;
      }
    }
  }

  /** Buffer::append while segments lie in the buffer: a read into the buffer, or the next
      reply made in it. The segments stay what they were. */
  method AppendBeside(buf: Buffer, data: seq<byte>, ghost bs: seq<Buffer>, ghost segs: seq<Segment>)
    returns (last: Buffer, ghost more: seq<Buffer>)
    requires IsTail(bs, buf) && AllPlaced(segs) && Sound(segs) && OwnArray(buf, segs)
    modifies buf, buf.dat
    ensures fresh(more) && fresh(Arrays(more)) && IsTail(bs + more, last)
    ensures (last == buf || (fresh(last) && fresh(last.dat)))
    ensures Flat(Data(bs + more)) == old(Flat(Data(bs))) + data
    ensures Data(bs + more)[..|bs| - 1] == old(Data(bs))[..|bs| - 1] && NoGap(Data(bs + more), |bs| - 1)
    ensures old(buf.len) <= buf.len && if data != [] then last.len > 0 else more == []
    ensures AllPlaced(segs) && Sound(segs) && OwnArray(last, segs)
  {
    hide Flat, Data, IsTail, AllPlaced, Sound, Chain, Holds, Content, Segment.Placed, HoldsAt, Apart;
    SoundParts(segs);
    TailParts(bs, buf);
    Room(bs);
    ghost var was := Content(buf);
    forall g | 0 <= g < |segs| && segs[g].bBuf != null
      ensures ChainParts(segs[g].chain, segs[g].cs) && EndsIn(segs[g].chain, segs[g].cs, buf, was)
    {
      HoldsParts(segs[g].chain, segs[g].cs);
      OnlyTheEnd(segs[g].chain, segs[g].cs, buf);
    }
    last, more := Append(buf, data, bs);
    TailParts(bs + more, last);
    forall g | 0 <= g < |segs| && segs[g].bBuf != null ensures Holds(segs[g].chain, segs[g].cs) {
      ghost var c, cs := segs[g].chain, segs[g].cs;
      assert old(ChainParts(c, cs));
      forall i | 0 <= i < |c| ensures HoldsAt(c, cs, i) {
        assert old(HoldsAt(c, cs, i));
        if c[i] != buf {
          assert c[i].dat != buf.dat;
        } else {
          TailMayGrow(c, cs, i, was);
        }
      }
      HoldsParts(c, cs);
    }
    SoundParts(segs);
  }

  // ----- the end of a chain -----------------------------------------------------------------

  /** Appended data lies between the old and the new end of the chain. */
  lemma Appended(before: seq<seq<byte>>, ds: seq<seq<byte>>, n: nat, pos: nat, data: seq<byte>)
    requires |before| == n + 1 <= |ds| && before[..n] == ds[..n] && Flat(ds) == Flat(before) + data
    requires Base(before, n) + pos == |Flat(before)|
    ensures Base(ds, n) + pos + |data| == |Flat(ds)| && Flat(ds)[Base(ds, n) + pos..|Flat(ds)|] == data
  {
    assert Base(ds, n) == Base(before, n);
    hide Flat, Base;
    Behind(Flat(before), data);
  }

  lemma Behind(a: seq<byte>, b: seq<byte>)
    ensures (a + b)[|a|..|a + b|] == b
  {
  }

  /** The place after the last byte of a chain is at the end of its flattened bytes. */
  lemma LastPlace(bs: seq<Buffer>, cs: seq<seq<byte>>)
    requires Chain(bs) && bs != [] && cs == Data(bs)
    ensures Base(cs, |bs| - 1) + bs[|bs| - 1].len == |Flat(cs)|
    ensures Holds(bs, cs) && Distinct(bs) && |cs[|bs| - 1]| == bs[|bs| - 1].len
  {
    FlatAt(cs, |bs| - 1);
    assert cs[..|bs|] == cs;
  }
}
