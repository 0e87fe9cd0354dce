/** AcceptConnection's output: replies are gathered from the request queue into io
    vectors and written with writev, which may take any number of the bytes. */
module ClientOutput {
  import opened Bytes
  import opened Buffers

  class Response {
    const head: Segment
    const body: Segment

    constructor (head: Segment, body: Segment)
      ensures this.head == head && this.body == body
    {
      this.head, this.body := head, body;
    }
  }

  class Request {
    var done: bool
    var res: Response?

    constructor ()
      ensures !done && res == null
    {
      done, res := false, null;
    }
  }

  /** An entry of the vector: the piece, its segment, and on the last piece of a reply
      the request it answers. */
  datatype IOVec = IOVec(piece: Piece, seg: Segment, req: Request?)

  // ----- the queue as a list of segments -----------------------------------------------------

  ghost function SegsOf(r: Request): seq<Segment>
    reads r
  {
    if r.done && r.res != null then [r.res.head, r.res.body] else []
  }

  /** Heads and bodies of the replies that are ready, in request order. */
  ghost function Segs(reqs: seq<Request>): (segs: seq<Segment>)
    reads reqs
    ensures |segs| % 2 == 0
  {
    if reqs == [] then [] else Segs(reqs[..|reqs| - 1]) + SegsOf(reqs[|reqs| - 1])
  }

  // ----- the bytes of a list of segments -----------------------------------------------------

  /** What is still to be sent of each segment. */
  ghost function Rests(segs: seq<Segment>): (r: seq<seq<byte>>)
    requires AllPlaced(segs)
    reads segs
    ensures |r| == |segs| && forall g :: 0 <= g < |segs| ==> r[g] == segs[g].Rest()
  {
    seq(|segs|, g requires 0 <= g < |segs| && AllPlaced(segs) reads segs => segs[g].Rest())
  }

  /** All the bytes of each segment, sent or not. */
  ghost function Wholes(segs: seq<Segment>): (r: seq<seq<byte>>)
    requires AllPlaced(segs)
    reads segs
    ensures |r| == |segs| && forall g :: 0 <= g < |segs| ==> r[g] == segs[g].Bytes()
  {
    seq(|segs|, g requires 0 <= g < |segs| && AllPlaced(segs) reads segs => segs[g].Bytes())
  }

  /** The buffers that each segment lies in. */
  ghost function ChainList(segs: seq<Segment>): (r: seq<seq<Buffer>>)
    reads segs
    ensures |r| == |segs| && forall g :: 0 <= g < |segs| ==> r[g] == segs[g].chain
  {
    seq(|segs|, g requires 0 <= g < |segs| reads segs => segs[g].chain)
  }

  /** Where the cursors are. */
  ghost function Curs(segs: seq<Segment>): (r: seq<nat>)
    requires AllPlaced(segs)
    reads segs
    ensures |r| == |segs| && forall g :: 0 <= g < |segs| ==> r[g] == segs[g].Cur()
  {
    seq(|segs|, g requires 0 <= g < |segs| && AllPlaced(segs) reads segs => segs[g].Cur())
  }

  /** The bytes still to be sent, in request order. */
  ghost function Pending(reqs: seq<Request>): seq<byte>
    requires AllPlaced(Segs(reqs))
    reads reqs, Segs(reqs)
  {
    Flat(Rests(Segs(reqs)))
  }

  // ----- sending a number of bytes, as a function on what is left --------------------------------

  function Clamp(n: int, hi: nat): (r: nat)
    ensures r <= hi
  {
    if n < 0 then 0 else if n > hi then hi else n
  }

  /** What is left of each piece when the first n bytes of all are gone. */
  function Consume(rests: seq<seq<byte>>, n: nat): (r: seq<seq<byte>>)
    ensures |r| == |rests|
  {
    if rests == [] then [] else
    var k := Clamp(n, |rests[0]|);
    [rests[0][k..]] + Consume(rests[1..], n - k)
  }

  lemma DropAppend(a: seq<byte>, b: seq<byte>, n: nat)
    requires n <= |a + b|
    ensures (a + b)[n..] == a[Clamp(n, |a|)..] + b[n - Clamp(n, |a|)..]
  {
    if n <= |a| {
      DropInside(a, b, n);
      assert b[0..] == b;
    } else {
      assert (a + b)[n..] == b[n - |a|..];
      assert a[|a|..] == [];
    }
  }

  lemma DropInside(a: seq<byte>, b: seq<byte>, n: nat)
    requires n <= |a|
    ensures (a + b)[n..] == a[n..] + b
  {
  }

  /** That is the bytes from n on: nothing repeated, skipped or reordered. */
  lemma {:induction false} ConsumeIsSuffix(rests: seq<seq<byte>>, n: nat)
    requires n <= |Flat(rests)|
    ensures Flat(Consume(rests, n)) == Flat(rests)[n..]
  {
    if rests != [] {
      var k := Clamp(n, |rests[0]|);
      ConsumeIsSuffix(rests[1..], n - k);
      var first, more := rests[0][k..], Consume(rests[1..], n - k);
      assert Flat([first] + more) == first + Flat(more) by { assert ([first] + more)[1..] == more; }
      assert Flat(rests) == rests[0] + Flat(rests[1..]);
      DropAppend(rests[0], Flat(rests[1..]), n);
    }
  }

  lemma {:induction false} ConsumeAt(rests: seq<seq<byte>>, n: nat, g: nat)
    requires g < |rests|
    ensures Consume(rests, n)[g] == rests[g][Clamp(n - Base(rests, g), |rests[g]|)..]
  {
    var k := Clamp(n, |rests[0]|);
    if g > 0 {
      assert rests[..g][0] == rests[0] && rests[..g][1..] == rests[1..][..g - 1];
      ConsumeAt(rests[1..], n - k, g - 1);
    }
  }

  // ----- where the entries of a vector are -----------------------------------------------------------

  function VTotal(vecs: seq<IOVec>): nat
  {
    if vecs == [] then 0 else VTotal(vecs[..|vecs| - 1]) + |vecs[|vecs| - 1].piece.dat|
  }

  /** What the vector hands to writev. */
  function VData(vecs: seq<IOVec>): (d: seq<byte>)
    ensures |d| == VTotal(vecs)
  {
    if vecs == [] then [] else VData(vecs[..|vecs| - 1]) + vecs[|vecs| - 1].piece.dat
  }

  /** How many of the bytes writev takes when it would take `answer` of enough bytes;
      negative is an error. */
  function Taken(vecs: seq<IOVec>, answer: int): (n: nat)
    ensures n <= VTotal(vecs)
  {
    if answer < 0 then 0 else if answer <= VTotal(vecs) then answer else VTotal(vecs)
  }

  /** write says so: the last entry, not an empty one, was taken too. */
  ghost predicate InFull(vecs: seq<IOVec>, answer: int)
  {
    vecs != [] && answer >= VTotal(vecs) && vecs[|vecs| - 1].piece.dat != []
  }

  /** Where entry j lies: segment `seg` of the queue, at offset `off` of its bytes. */
  datatype Spot = Spot(seg: nat, off: nat)

  ghost predicate SpotOk(segs: seq<Segment>, v: IOVec, at: Spot)
    requires AllPlaced(segs)
    reads segs
  {
    && at.seg < |segs| && v.seg == segs[at.seg]
    && at.off + |v.piece.dat| <= |v.seg.Bytes()| && v.seg.PlaceAt(v.piece.buf, v.piece.pos, at.off)
    && v.piece.dat == v.seg.Bytes()[at.off..at.off + |v.piece.dat|]
  }

  ghost predicate AllSpots(segs: seq<Segment>, vecs: seq<IOVec>, spots: seq<Spot>)
    requires AllPlaced(segs)
    reads segs
  {
    |spots| == |vecs| && forall j :: 0 <= j < |vecs| ==> SpotOk(segs, vecs[j], spots[j])
  }

  ghost predicate DistinctSegs(segs: seq<Segment>)
  {
    forall g, h :: 0 <= g < h < |segs| ==> segs[g] != segs[h]
  }

  /** What a segment's places are judged by, apart from its cursor. */
  datatype Ground = Ground(none: bool, chain: seq<Buffer>, cs: seq<seq<byte>>, bi: nat, ei: nat, bPos: nat)

  ghost function GroundOf(seg: Segment): Ground
    reads seg
  {
    Ground(seg.bBuf == null, seg.chain, seg.cs, seg.bi, seg.ei, seg.bPos)
  }

  ghost predicate SpotBy(g: Ground, bytes: seq<byte>, p: Piece, off: nat)
  {
    && off + |p.dat| <= |bytes| && p.dat == bytes[off..off + |p.dat|] && !g.none && g.bi <= g.ei < |g.chain| == |g.cs|
    && PlaceIn(g.chain, g.cs, g.bi, g.ei, Base(g.cs, g.bi) + g.bPos + off, p.buf, p.pos)
  }

  ghost predicate SpotNow(segs: seq<Segment>, v: IOVec, at: Spot)
    requires AllPlaced(segs)
    reads segs
  {
    at.seg < |segs| && v.seg == segs[at.seg] && SpotBy(GroundOf(segs[at.seg]), segs[at.seg].Bytes(), v.piece, at.off)
  }

  lemma SpotParts(segs: seq<Segment>, v: IOVec, at: Spot)
    requires AllPlaced(segs)
    ensures SpotOk(segs, v, at) <==> SpotNow(segs, v, at)
  {
    hide Base, PlaceIn, Segment.Bytes;
  }

  /** seek on one segment leaves the other segments and all contents alone. */
  method SeekOne(ghost segs: seq<Segment>, ghost g: nat, seg: Segment, buf: Buffer, pos: nat, count: nat,
                 ghost off: nat)
    requires DistinctSegs(segs) && g < |segs| && segs[g] == seg && Sound(segs)
    requires seg.InPlace() && seg.PlaceAt(buf, pos, off) && off + count <= |seg.Bytes()|
    modifies seg`cBuf, seg`cPos, seg`ci
    ensures Sound(segs) && AllPlaced(segs)
    ensures forall h :: 0 <= h < |segs| ==>
            segs[h].Bytes() == old(segs[h].Bytes()) && GroundOf(segs[h]) == old(GroundOf(segs[h]))
    ensures forall h :: 0 <= h < |segs| && h != g ==> segs[h].Cur() == old(segs[h].Cur())
    ensures seg.Cur() == off + count
  {
    hide Flat, Base, Holds, Chain, Distinct;
    seg.Seek(buf, pos, count, off);
    forall h | 0 <= h < |segs|
      ensures segs[h].InPlace() && segs[h].Valid() && segs[h].Bytes() == old(segs[h].Bytes())
      ensures h != g ==> segs[h].Cur() == old(segs[h].Cur())
    {
      if h != g {
        assert unchanged(segs[h]);
        ghost var c := segs[h].chain;
        assert forall o :: o in c ==> unchanged(o);
        assert forall o :: o in Arrays(c) ==> unchanged(o);
      }
    }
  }

  /** seek on the segment of one entry, by some of its bytes: the places of all entries stay. */
  method SeekVec(ghost segs: seq<Segment>, vecs: seq<IOVec>, ghost spots: seq<Spot>, i: nat, count: nat)
    requires DistinctSegs(segs) && Sound(segs) && AllPlaced(segs)
    requires AllSpots(segs, vecs, spots) && i < |vecs| && count <= |vecs[i].piece.dat|
    modifies segs
    ensures Sound(segs) && AllPlaced(segs)
    ensures spots[i].seg < |segs| && Wholes(segs) == old(Wholes(segs)) && ChainList(segs) == old(ChainList(segs))
    ensures Curs(segs) == old(Curs(segs))[spots[i].seg := spots[i].off + count]
    ensures spots[i].off + count <= |Wholes(segs)[spots[i].seg]|
    ensures AllSpots(segs, vecs, spots)
  {
    hide Flat, Base, Sound, PlaceIn, Segment.InPlace, Segment.PlaceAt, Segment.Bytes, SpotBy;
    assert SpotOk(segs, vecs[i], spots[i]);
    hide SpotOk;
    var v := vecs[i];
    forall j | 0 <= j < |vecs| ensures SpotNow(segs, vecs[j], spots[j]) { SpotParts(segs, vecs[j], spots[j]); }
    SeekOne(segs, spots[i].seg, v.seg, v.piece.buf, v.piece.pos, count, spots[i].off);
    forall j | 0 <= j < |vecs| ensures SpotOk(segs, vecs[j], spots[j]) {
      assert old(SpotNow(segs, vecs[j], spots[j]));
      SpotParts(segs, vecs[j], spots[j]);
    }
  }

  // ----- vectors along the pending bytes --------------------------------------------------------------

  lemma {:induction false} VTotalAppend(a: seq<IOVec>, b: seq<IOVec>)
    ensures VTotal(a + b) == VTotal(a) + VTotal(b)
    decreases |b|
  {
    if b == [] {
      assert a + b == a;
    } else {
      assert (a + b)[..|a + b| - 1] == a + b[..|b| - 1];
      VTotalAppend(a, b[..|b| - 1]);
    }
  }

  lemma {:induction false} VTotalMonotone(vecs: seq<IOVec>, i: nat, j: nat)
    requires i <= j <= |vecs|
    ensures VTotal(vecs[..i]) <= VTotal(vecs[..j])
    decreases j
  {
    if i < j {
      assert vecs[..j][..j - 1] == vecs[..j - 1];
      VTotalMonotone(vecs, i, j - 1);
    }
  }

  lemma VTotalNext(vecs: seq<IOVec>, j: nat)
    requires j < |vecs|
    ensures VTotal(vecs[..j + 1]) == VTotal(vecs[..j]) + |vecs[j].piece.dat|
  {
    assert vecs[..j + 1][..j] == vecs[..j];
  }

  /** How far into the pending bytes a spot is. */
  ghost function Position(curs: seq<nat>, rests: seq<seq<byte>>, at: Spot): int
    requires |curs| == |rests| && at.seg < |curs|
  {
    Base(rests, at.seg) + at.off - curs[at.seg]
  }

  /** The entries cover the pending bytes from offset t on, without gap or overlap. */
  ghost predicate InStream(curs: seq<nat>, rests: seq<seq<byte>>, vecs: seq<IOVec>, spots: seq<Spot>, t: nat)
    requires |curs| == |rests|
  {
    |spots| == |vecs| && forall j :: 0 <= j < |vecs| ==> AtTotal(curs, rests, spots[j], t + VTotal(vecs[..j]))
  }

  ghost predicate AtTotal(curs: seq<nat>, rests: seq<seq<byte>>, at: Spot, t: nat)
    requires |curs| == |rests|
  {
    at.seg < |curs| && curs[at.seg] <= at.off && Position(curs, rests, at) == t
  }

  /** The vector is the first pending bytes. */
  lemma {:induction false} DataIsPending(segs: seq<Segment>, curs: seq<nat>, rests: seq<seq<byte>>, vecs: seq<IOVec>,
                                         spots: seq<Spot>, j: nat)
    requires AllPlaced(segs) && curs == Curs(segs) && rests == Rests(segs) && j <= |vecs|
    requires AllSpots(segs, vecs, spots) && InStream(curs, rests, vecs, spots, 0)
    ensures VTotal(vecs[..j]) <= |Flat(rests)| && VData(vecs[..j]) == Flat(rests)[..VTotal(vecs[..j])]
    decreases j
  {
    hide Flat, Base, AllPlaced, AtTotal, SpotOk, VTotal, VData, Curs, Rests;
    if j == 0 {
      VDataNone(vecs);
    } else {
      DataIsPending(segs, curs, rests, vecs, spots, j - 1);
      VDataNext(vecs, j - 1);
      VTotalNext(vecs, j - 1);
      EntryIsPending(segs, curs, rests, vecs[j - 1], spots[j - 1], VTotal(vecs[..j - 1]));
      TakeMore(Flat(rests), VTotal(vecs[..j - 1]), |vecs[j - 1].piece.dat|);
    }
  }

  lemma VDataNone(vecs: seq<IOVec>)
    ensures VData(vecs[..0]) == [] && VTotal(vecs[..0]) == 0
  {
  }

  lemma VDataNext(vecs: seq<IOVec>, j: nat)
    requires j < |vecs|
    ensures VData(vecs[..j + 1]) == VData(vecs[..j]) + vecs[j].piece.dat
  {
    assert vecs[..j + 1][..j] == vecs[..j];
  }

  lemma TakeMore(s: seq<byte>, t: nat, n: nat)
    requires t + n <= |s|
    ensures s[..t] + s[t..t + n] == s[..t + n]
  {
  }

  lemma {:induction false} EntryIsPending(segs: seq<Segment>, curs: seq<nat>, rests: seq<seq<byte>>, v: IOVec, at: Spot,
                                          t: nat)
    requires AllPlaced(segs) && curs == Curs(segs) && rests == Rests(segs)
    requires SpotOk(segs, v, at) && AtTotal(curs, rests, at, t)
    ensures t + |v.piece.dat| <= |Flat(rests)| && v.piece.dat == Flat(rests)[t..t + |v.piece.dat|]
  {
    hide Flat, Base, Segment.InPlace, Segment.PlaceAt, Segment.Bytes;
    var cur, n := curs[at.seg], |v.piece.dat|;
    FlatPiece(rests, at.seg, at.off - cur, at.off - cur + n);
    SubSlice(v.seg.Bytes(), cur, |v.seg.Bytes()|, at.off - cur, n);
    assert v.seg.Bytes()[cur..|v.seg.Bytes()|] == rests[at.seg];
  }

  lemma {:induction false} InStreamAppend(curs: seq<nat>, rests: seq<seq<byte>>, a: seq<IOVec>, p: seq<Spot>,
                                          b: seq<IOVec>, q: seq<Spot>, t: nat)
    requires |curs| == |rests| && InStream(curs, rests, a, p, t) && InStream(curs, rests, b, q, t + VTotal(a))
    ensures InStream(curs, rests, a + b, p + q, t)
  {
    hide VTotal, AtTotal;
    var vecs, spots := a + b, p + q;
    forall j | 0 <= j < |vecs| ensures AtTotal(curs, rests, spots[j], t + VTotal(vecs[..j])) {
      if j < |a| {
        assert spots[j] == p[j] && vecs[..j] == a[..j];
      } else {
        var i := j - |a|;
        assert spots[j] == q[i] && vecs[..j] == a + b[..i];
        VTotalAppend(a, b[..i]);
      }
    }
  }

  lemma SpotsAppend(segs: seq<Segment>, a: seq<IOVec>, p: seq<Spot>, b: seq<IOVec>, q: seq<Spot>)
    requires AllPlaced(segs) && AllSpots(segs, a, p) && AllSpots(segs, b, q)
    ensures AllSpots(segs, a + b, p + q)
  {
    hide SpotOk, AllPlaced;
  }

  /** The pieces of one segment as entries without a request. */
  function Entries(ps: seq<Piece>, seg: Segment): (vecs: seq<IOVec>)
    ensures |vecs| == |ps|
    ensures forall j :: 0 <= j < |ps| ==> vecs[j] == IOVec(ps[j], seg, null)
  {
    seq(|ps|, j requires 0 <= j < |ps| => IOVec(ps[j], seg, null))
  }

  lemma {:induction false} EntriesTotal(ps: seq<Piece>, seg: Segment)
    ensures VTotal(Entries(ps, seg)) == Total(ps)
    decreases |ps|
  {
    if ps != [] {
      var n := |ps| - 1;
      assert Entries(ps, seg)[..n] == Entries(ps[..n], seg);
      EntriesTotal(ps[..n], seg);
    }
  }

  ghost function SpotsFrom(ps: seq<Piece>, g: nat, cur: nat): (spots: seq<Spot>)
    ensures |spots| == |ps|
  {
    seq(|ps|, j requires 0 <= j < |ps| => Spot(g, cur + Total(ps[..j])))
  }

  /** The pieces of segment g lie in the stream where the segment's rest does. */
  lemma PiecesInStream(curs: seq<nat>, rests: seq<seq<byte>>, g: nat, ps: seq<Piece>, seg: Segment)
    requires |curs| == |rests| && g < |curs|
    ensures InStream(curs, rests, Entries(ps, seg), SpotsFrom(ps, g, curs[g]), Base(rests, g))
  {
    hide Total, Base, VTotal;
    forall j | 0 <= j < |ps| ensures VTotal(Entries(ps, seg)[..j]) == Total(ps[..j]) {
      assert Entries(ps, seg)[..j] == Entries(ps[..j], seg);
      EntriesTotal(ps[..j], seg);
    }
  }

  lemma PiecesAreSpots(segs: seq<Segment>, g: nat, ps: seq<Piece>)
    requires AllPlaced(segs) && g < |segs| && segs[g].Pieces(ps, segs[g].Cur())
    ensures AllSpots(segs, Entries(ps, segs[g]), SpotsFrom(ps, g, segs[g].Cur()))
  {
    hide Total, Segment.InPlace, Segment.PieceAt, SpotOk;
    forall j | 0 <= j < |ps|
      ensures SpotOk(segs, Entries(ps, segs[g])[j], SpotsFrom(ps, g, segs[g].Cur())[j])
    {
      PieceIsSpot(segs, g, ps[j], segs[g].Cur() + Total(ps[..j]));
    }
  }

  lemma PieceIsSpot(segs: seq<Segment>, g: nat, p: Piece, off: nat)
    requires AllPlaced(segs) && g < |segs| && segs[g].PieceAt(p, off)
    ensures SpotOk(segs, IOVec(p, segs[g], null), Spot(g, off))
  {
    hide Segment.InPlace, Segment.PlaceAt, Segment.Bytes;
  }

  /** Setting the request of an entry moves nothing. */
  lemma FlagKeepsStream(curs: seq<nat>, rests: seq<seq<byte>>, a: seq<IOVec>, b: seq<IOVec>, spots: seq<Spot>, t: nat)
    requires |curs| == |rests| && InStream(curs, rests, a, spots, t)
    requires |a| == |b| && forall i :: 0 <= i < |a| ==> a[i].piece == b[i].piece
    ensures InStream(curs, rests, b, spots, t)
  {
    hide VTotal, AtTotal;
    forall j | 0 <= j <= |a| ensures VTotal(a[..j]) == VTotal(b[..j]) { SameTotals(a, b, j); }
  }

  lemma FlagKeepsTotal(a: seq<IOVec>, b: seq<IOVec>)
    requires |a| == |b| && forall i :: 0 <= i < |a| ==> a[i].piece == b[i].piece
    ensures VTotal(a) == VTotal(b)
  {
    hide VTotal;
    SameTotals(a, b, |a|);
    assert a[..|a|] == a && b[..|a|] == b;
  }

  lemma {:induction false} SameTotals(a: seq<IOVec>, b: seq<IOVec>, j: nat)
    requires |a| == |b| && j <= |a| && forall i :: 0 <= i < |a| ==> a[i].piece == b[i].piece
    ensures VTotal(a[..j]) == VTotal(b[..j])
    decreases j
  {
    if j > 0 {
      assert a[..j][..j - 1] == a[..j - 1] && b[..j][..j - 1] == b[..j - 1];
      SameTotals(a, b, j - 1);
    }
  }

  lemma VTotalPrefix(vecs: seq<IOVec>, j: nat)
    requires j <= |vecs|
    ensures VTotal(vecs[..j]) <= VTotal(vecs)
  {
    VTotalMonotone(vecs, j, |vecs|);
    assert vecs[..|vecs|] == vecs;
  }

  // ----- which request an entry answers ------------------------------------------------------------------

  /** Entry v, starting at offset t, is inside the reply of request k, which spans
      ends[k]..ends[k + 1]. It carries the request iff the reply ends with it. */
  ghost predicate OwnedAt(reqs: seq<Request>, v: IOVec, t: nat, k: nat, ends: seq<nat>)
  {
    && k + 1 < |ends| <= |reqs| + 1 && ends[k] <= t && t + |v.piece.dat| <= ends[k + 1]
    && v.req == if t + |v.piece.dat| == ends[k + 1] && v.piece.dat != [] then reqs[k] else null
  }

  ghost predicate Owned(reqs: seq<Request>, vecs: seq<IOVec>, owner: seq<nat>, ends: seq<nat>)
  {
    |owner| == |vecs| && forall j :: 0 <= j < |vecs| ==> OwnedAt(reqs, vecs[j], VTotal(vecs[..j]), owner[j], ends)
  }

  /** The requests before place p are popped: those whose replies end at offset t or before. */
  ghost predicate Settled(ends: seq<nat>, p: nat, t: nat)
  {
    && p < |ends| && (forall k :: 0 < k <= p ==> ends[k] <= t)
    && forall k :: p < k < |ends| && ends[k - 1] < ends[k] ==> t < ends[k]
  }

  ghost predicate Ascending(ends: seq<nat>)
  {
    ends != [] && ends[0] == 0 && forall k, l :: 0 <= k <= l < |ends| ==> ends[k] <= ends[l]
  }

  /** m more bytes are sent, all of entry v or the start of it. */
  lemma SettleMore(reqs: seq<Request>, v: IOVec, t: nat, k: nat, ends: seq<nat>, p: nat, m: nat)
    requires Ascending(ends) && Settled(ends, p, t) && OwnedAt(reqs, v, t, k, ends) && m <= |v.piece.dat|
    ensures v.req != null && m == |v.piece.dat| ==> p <= k && v.req == reqs[k] && Settled(ends, k + 1, t + m)
    ensures v.req == null || m < |v.piece.dat| ==> Settled(ends, p, t + m)
  {
  }

  // ----- the cursors while bytes are sent -----------------------------------------------------------------

  /** The first t pending bytes are behind the cursors. */
  ghost predicate CursAt(curs0: seq<nat>, rests: seq<seq<byte>>, curs: seq<nat>, t: nat)
    requires |curs0| == |rests|
  {
    |curs| == |curs0| && forall g :: 0 <= g < |curs| ==> curs[g] == curs0[g] + Clamp(t - Base(rests, g), |rests[g]|)
  }

  lemma MoveOne(curs0: seq<nat>, rests: seq<seq<byte>>, curs: seq<nat>, at: Spot, t: nat, m: nat)
    requires |curs0| == |rests| && CursAt(curs0, rests, curs, t) && AtTotal(curs0, rests, at, t)
    requires at.off + m <= curs0[at.seg] + |rests[at.seg]|
    ensures CursAt(curs0, rests, curs[at.seg := at.off + m], t + m)
  {
    hide Base, Flat;
    forall g | 0 <= g < |curs| && g != at.seg
      ensures Clamp(t - Base(rests, g), |rests[g]|) == Clamp(t + m - Base(rests, g), |rests[g]|)
    {
      FlatAt(rests, g);
      FlatAt(rests, at.seg);
      if g < at.seg { BaseMonotone(rests, g + 1, at.seg); } else { BaseMonotone(rests, at.seg + 1, g); }
    }
  }

  // ----- Response::fill -----------------------------------------------------------------------------------------

  /** The entries of one reply of `total` bytes: the one that ends it carries the request. */
  ghost predicate Marked(vecs: seq<IOVec>, total: nat, req: Request)
  {
    forall j :: 0 <= j < |vecs| ==> MarkedAt(vecs[j], VTotal(vecs[..j]), total, req)
  }

  ghost predicate MarkedAt(v: IOVec, t: nat, total: nat, req: Request)
  {
    t + |v.piece.dat| <= total && v.req == if t + |v.piece.dat| == total && v.piece.dat != [] then req else null
  }

  ghost predicate Plain(vecs: seq<IOVec>) { forall j :: 0 <= j < |vecs| ==> vecs[j].req == null }

  lemma NotMarked(vecs: seq<IOVec>, total: nat, req: Request)
    requires VTotal(vecs) < total && Plain(vecs)
    ensures Marked(vecs, total, req)
  {
    hide VTotal;
    forall j | 0 <= j < |vecs| ensures MarkedAt(vecs[j], VTotal(vecs[..j]), total, req) {
      VTotalNext(vecs, j);
      VTotalPrefix(vecs, j + 1);
    }
  }

  lemma LastMarked(vecs: seq<IOVec>, total: nat, req: Request)
    requires vecs != [] && VTotal(vecs) == total && vecs[|vecs| - 1].piece.dat != []
    requires Plain(vecs)
    ensures Marked(vecs[|vecs| - 1 := vecs[|vecs| - 1].(req := req)], total, req)
  {
    hide VTotal;
    var n := |vecs| - 1;
    var ws := vecs[n := vecs[n].(req := req)];
    VTotalNext(vecs, n);
    assert vecs[..n + 1] == vecs;
    forall j | 0 <= j <= n ensures MarkedAt(ws[j], VTotal(ws[..j]), total, req) {
      assert ws[..j] == vecs[..j];
      if j < n {
        VTotalNext(vecs, j);
        VTotalMonotone(vecs, j + 1, n);
      }
    }
  }

  lemma FlagKeepsSpots(segs: seq<Segment>, a: seq<IOVec>, b: seq<IOVec>, spots: seq<Spot>)
    requires AllPlaced(segs) && AllSpots(segs, a, spots)
    requires |a| == |b| && forall i :: 0 <= i < |a| ==> a[i].piece == b[i].piece && a[i].seg == b[i].seg
    ensures AllSpots(segs, b, spots)
  {
    hide Segment.InPlace, Segment.PlaceAt, Segment.Bytes;
    forall j | 0 <= j < |b| ensures SpotOk(segs, b[j], spots[j]) {
      assert SpotOk(segs, a[j], spots[j]);
    }
  }

  /** Segment::fill, as entries at the segment's place in the stream. */
  method FillSegment(seg: Segment, max: nat, ghost segs: seq<Segment>, ghost g: nat, ghost curs: seq<nat>,
                     ghost rests: seq<seq<byte>>)
    returns (vecs: seq<IOVec>, all: bool, ghost spots: seq<Spot>)
    requires Sound(segs) && g < |segs| && segs[g] == seg && curs == Curs(segs) && rests == Rests(segs)
    ensures Sound(segs) && AllPlaced(segs) && AllSpots(segs, vecs, spots)
    ensures |vecs| <= max && Plain(vecs) && InStream(curs, rests, vecs, spots, Base(rests, g))
    ensures if all then VTotal(vecs) == |rests[g]| else |vecs| == max && (rests[g] != [] ==> VTotal(vecs) < |rests[g]|)
    ensures VTotal(vecs) <= |rests[g]|
    ensures max > 0 && rests[g] != [] ==> vecs != []
    ensures (all && vecs != [] ==> vecs[|vecs| - 1].piece.dat != []) && (|vecs| > 1 ==> VTotal(vecs) > 0)
  {
    hide Base, Flat, Total, VTotal, InStream, AllSpots, Segment.Pieces, Sound, Segment.Valid, Segment.Placed;
    hide Segment.Bytes, Segment.Cur, Distinct, Holds, Chain;
    SoundAt(segs, g);
    var ps;
    ps, all := seg.Fill(max);
    assert unchanged(Chains(segs)) && unchanged(Contents(segs));
    vecs := Entries(ps, seg);
    spots := SpotsFrom(ps, g, seg.Cur());
    EntriesTotal(ps, seg);
    PiecesAreSpots(segs, g, ps);
    PiecesInStream(curs, rests, g, ps, seg);
    if |vecs| > 1 { LastCounts(vecs); }
  }

  lemma LastCounts(vecs: seq<IOVec>)
    ensures vecs != [] && vecs[|vecs| - 1].piece.dat != [] ==> VTotal(vecs) > 0
  {
  }

  /** Response::fill: entries for what is left of head and body, the last one marked. */
  method FillResponse(res: Response, max: nat, req: Request, ghost segs: seq<Segment>, ghost g: nat,
                      ghost curs: seq<nat>, ghost rests: seq<seq<byte>>)
    returns (vecs: seq<IOVec>, ghost spots: seq<Spot>)
    requires Sound(segs) && g + 1 < |segs| && segs[g] == res.head && segs[g + 1] == res.body
    requires curs == Curs(segs) && rests == Rests(segs) && rests[g + 1] != []
    ensures Sound(segs) && AllPlaced(segs) && AllSpots(segs, vecs, spots)
    ensures |vecs| <= max && InStream(curs, rests, vecs, spots, Base(rests, g))
    ensures Marked(vecs, |rests[g]| + |rests[g + 1]|, req)
    ensures VTotal(vecs) <= |rests[g]| + |rests[g + 1]|
    ensures |vecs| < max ==> VTotal(vecs) == |rests[g]| + |rests[g + 1]|
    ensures (max > 0 ==> vecs != []) && (max > 1 ==> VTotal(vecs) > 0)
  {
    hide *;
    ghost var total := |rests[g]| + |rests[g + 1]|;
    var all;
    vecs, all, spots := FillSegment(res.head, max, segs, g, curs, rests);
    if !all {
      NotMarked(vecs, total, req);
      return;
    }
    if vecs != [] { LastCounts(vecs); }
    var more; ghost var moreSpots;
    more, all, moreSpots := FillSegment(res.body, max - |vecs|, segs, g + 1, curs, rests);
    JoinEntries(segs, g, curs, rests, vecs, spots, more, moreSpots);
    vecs := vecs + more;
    spots := spots + moreSpots;
    if |vecs| > 0 && all {
      ghost var plain := vecs;
      vecs := vecs[|vecs| - 1 := vecs[|vecs| - 1].(req := req)];
      FlagLast(segs, curs, rests, plain, vecs, spots, Base(rests, g), total, req);
    } else {
      NotMarked(vecs, total, req);
    }
  }

  lemma FlagLast(segs: seq<Segment>, curs: seq<nat>, rests: seq<seq<byte>>, a: seq<IOVec>, b: seq<IOVec>,
                 spots: seq<Spot>, t: nat, total: nat, req: Request)
    requires AllPlaced(segs) && AllSpots(segs, a, spots) && |curs| == |rests| && InStream(curs, rests, a, spots, t)
    requires Plain(a) && a != [] && VTotal(a) == total && a[|a| - 1].piece.dat != []
    requires b == a[|a| - 1 := a[|a| - 1].(req := req)]
    ensures AllSpots(segs, b, spots) && InStream(curs, rests, b, spots, t) && Marked(b, total, req)
    ensures VTotal(b) == total
  {
    hide VTotal, InStream, AllSpots, Marked;
    LastMarked(a, total, req);
    FlagKeepsStream(curs, rests, a, b, spots, t);
    FlagKeepsSpots(segs, a, b, spots);
    FlagKeepsTotal(a, b);
  }

  lemma JoinEntries(segs: seq<Segment>, g: nat, curs: seq<nat>, rests: seq<seq<byte>>, a: seq<IOVec>, p: seq<Spot>,
                    b: seq<IOVec>, q: seq<Spot>)
    requires AllPlaced(segs) && AllSpots(segs, a, p) && AllSpots(segs, b, q) && Plain(a) && Plain(b)
    requires |curs| == |rests| && g + 1 < |rests|
    requires InStream(curs, rests, a, p, Base(rests, g)) && VTotal(a) == |rests[g]|
    requires InStream(curs, rests, b, q, Base(rests, g + 1))
    ensures AllSpots(segs, a + b, p + q) && InStream(curs, rests, a + b, p + q, Base(rests, g))
    ensures VTotal(a + b) == VTotal(a) + VTotal(b) && Plain(a + b)
  {
    hide Base, Flat, VTotal, InStream, AllSpots;
    FlatAt(rests, g);
    VTotalAppend(a, b);
    InStreamAppend(curs, rests, a, p, b, q, Base(rests, g));
    SpotsAppend(segs, a, p, b, q);
  }

  /** A segment that holds nothing, beside those there are. */
  method NewSegment(ghost segs: seq<Segment>, ghost chains: set<object>, ghost contents: set<object>, ghost buf: Buffer)
    returns (seg: Segment)
    requires AllPlaced(segs) && Sound(segs) && chains == Chains(segs) && contents == Contents(segs)
    requires OwnArray(buf, segs)
    ensures fresh(seg) && seg !in segs && seg.InPlace() && seg.Valid() && seg.bBuf == null && seg.Bytes() == []
    ensures seg.Cur() == 0
    ensures AllPlaced(segs) && Sound(segs) && OwnArray(buf, segs)
  {
    hide Sound, Chains, Contents, AllPlaced, OwnArray;
    seg := new Segment();
    assert unchanged(chains) && unchanged(contents);
  }

  /** A buffer of its own chain, for a segment beside those there are. */
  method NewBuffer(size: nat, ghost segs: seq<Segment>, ghost chains: set<object>, ghost contents: set<object>,
                   ghost buf: Buffer)
    returns (nbuf: Buffer)
    requires AllPlaced(segs) && Sound(segs) && chains == Chains(segs) && contents == Contents(segs) && size > 0
    ensures fresh(nbuf) && fresh(nbuf.dat) && IsTail([nbuf], nbuf) && OwnArray(nbuf, segs)
    ensures AllPlaced(segs) && Sound(segs)
  {
    hide Sound, Chains, Contents, AllPlaced;
    nbuf := new Buffer(size);
    assert unchanged(chains) && unchanged(contents);
  }

  /** A head, if there is one, in a new buffer. */
  method SetHead(h: Segment, head: seq<byte>, size: nat, ghost segs: seq<Segment>, ghost buf: Buffer)
    requires AllPlaced(segs) && Sound(segs) && OwnArray(buf, segs) && size > 0
    requires h !in segs && h.InPlace() && h.Valid() && h.bBuf == null && h.Bytes() == [] && h.Cur() == 0
    modifies h
    ensures var all := segs + [h]; AllPlaced(all) && Sound(all) && OwnArray(buf, all)
    ensures h.InPlace() && h.Bytes() == head && h.Cur() == 0
  {
    hide *;
    NoChain(h);
    if head != [] {
      var hb := NewBuffer(size, segs, Chains(segs), Contents(segs), buf);
      ghost var rest;
      var end;
      end, rest := h.Set(hb, head, [hb], segs);
      ArraysOf([hb], rest);
      OneArray(hb);
      assert forall i :: 0 <= i < |h.chain| ==> h.chain[i].dat != buf.dat;
    }
    AddSegment(segs, h, buf);
  }

  method NewResponse(h: Segment, b: Segment, ghost segs: seq<Segment>, ghost chains: set<object>,
                     ghost contents: set<object>, ghost buf: Buffer)
    returns (res: Response)
    requires AllPlaced(segs) && Sound(segs) && chains == Chains(segs) && contents == Contents(segs)
    requires OwnArray(buf, segs)
    ensures res.head == h && res.body == b && AllPlaced(segs) && Sound(segs) && OwnArray(buf, segs)
  {
    hide Sound, Chains, Contents, AllPlaced, OwnArray;
    res := new Response(h, b);
    assert unchanged(chains) && unchanged(contents);
  }

  lemma OneArray(b: Buffer)
    ensures Arrays([b]) == {b.dat}
  {
  }

  lemma NoChain(seg: Segment)
    requires seg.Valid() && seg.bBuf == null
    ensures seg.chain == []
  {
  }

  /** A reply with its body at the end of a buffer, among the segments there are, and its
      head, if it has one, in a buffer of its own. */
  method MakeReply(head: seq<byte>, body: seq<byte>, buf: Buffer, ghost bs: seq<Buffer>, ghost segs: seq<Segment>)
    returns (res: Response, last: Buffer, ghost more: seq<Buffer>)
    requires IsTail(bs, buf) && AllPlaced(segs) && Sound(segs) && OwnArray(buf, segs)
    modifies buf, buf.dat
    ensures fresh(more) && IsTail(bs + more, last) && (last == buf || (fresh(last) && fresh(last.dat)))
    ensures fresh(res.head) && fresh(res.body) && res.head != res.body
    ensures var all := segs + [res.body, res.head]; AllPlaced(all) && Sound(all) && OwnArray(last, all)
    ensures res.head.InPlace() && res.head.Bytes() == head && res.head.Cur() == 0
    ensures res.body.InPlace() && res.body.Bytes() == body && res.body.Cur() == 0
  {
    hide *;
    var b := NewSegment(segs, Chains(segs), Contents(segs), buf);
    TailParts(bs, buf);
    last, more := b.Set(buf, body, bs, segs);
    ghost var all := segs + [b];
    OwnInChain(bs + more, last);
    AddSegment(segs, b, last);
    var h := NewSegment(all, Chains(all), Contents(all), last);
    TailParts(bs + more, last);
    SetHead(h, head, last.dat.Length, all, last);
    ghost var both := all + [h];
    res := NewResponse(h, b, both, Chains(both), Contents(both), last);
    assert segs + [b, h] == both;
  }

  lemma ArraysOf(a: seq<Buffer>, b: seq<Buffer>)
    ensures forall i :: 0 <= i < |a + b| ==> (a + b)[i].dat in Arrays(a) + Arrays(b)
    ensures forall i :: 0 <= i < |a| ==> a[i].dat in Arrays(a)
  {
  }

  lemma OwnInChain(bs: seq<Buffer>, last: Buffer)
    requires IsTail(bs, last)
    ensures forall i :: 0 <= i < |bs| && bs[i] != last ==> bs[i].dat != last.dat
  {
  }

  lemma AddSegment(segs: seq<Segment>, seg: Segment, last: Buffer)
    requires AllPlaced(segs) && Sound(segs) && OwnArray(last, segs) && seg.InPlace() && seg.Valid()
    requires forall i :: 0 <= i < |seg.chain| && seg.chain[i] != last ==> seg.chain[i].dat != last.dat
    ensures var all := segs + [seg]; AllPlaced(all) && Sound(all) && OwnArray(last, all)
  {
    hide Segment.Placed, Holds, Chains, Contents;
    var all := segs + [seg];
    forall s | s in all ensures s.InPlace() && s.Valid() {
      if s != seg { assert s in segs; }
    }
  }

  /** AppendBeside, for the replies that wait in a queue. */
  method AppendToQueue(buf: Buffer, data: seq<byte>, ghost bs: seq<Buffer>, ghost reqs: seq<Request>,
                       ghost segs: seq<Segment>)
    returns (last: Buffer, ghost more: seq<Buffer>)
    requires segs == Segs(reqs) && Ready(reqs) && Untouched(reqs) && IsTail(bs, buf) && OwnArray(buf, segs)
    modifies buf, buf.dat
    ensures fresh(more) && IsTail(bs + more, last) && (last == buf || (fresh(last) && fresh(last.dat)))
    ensures Flat(Data(bs + more)) == old(Flat(Data(bs))) + data
    ensures segs == Segs(reqs) && Ready(reqs) && Untouched(reqs) && OwnArray(last, segs) && AllPlaced(segs)
    ensures Lens(reqs) == old(Lens(reqs)) && Rests(segs) == old(Rests(segs)) && Wholes(segs) == old(Wholes(segs))
  {
    hide *;
    ReadyParts(reqs);
    last, more := AppendBeside(buf, data, bs, segs);
    assert forall r :: r in reqs ==> unchanged(r);
    assert forall s :: s in segs ==> unchanged(s);
    ReadyFrom(reqs);
  }

  /** A request gets its reply: the segments of the others stay, and all the bytes do. */
  method SetReply(req: Request, res: Response?, ghost before: seq<Request>, ghost behind: seq<Request>,
                  ghost all: seq<Segment>, ghost segs: seq<Segment>, ghost curs: seq<nat>)
    requires req !in before && req !in behind && AllPlaced(all) && Sound(all) && AllPlaced(segs)
    modifies req
    ensures req.done && req.res == res && AllPlaced(all) && Sound(all) && AllPlaced(segs)
    ensures Segs(before) == old(Segs(before)) && Lens(before) == old(Lens(before))
    ensures UntouchedBy(before, curs) == old(UntouchedBy(before, curs))
    ensures Segs(behind) == old(Segs(behind)) && Lens(behind) == old(Lens(behind))
    ensures Rests(all) == old(Rests(all)) && Wholes(all) == old(Wholes(all)) && Curs(all) == old(Curs(all))
    ensures Wholes(segs) == old(Wholes(segs)) && Curs(segs) == old(Curs(segs))
  {
    hide *;
    NotInChains(all, req);
    req.done, req.res := true, res;
    assert forall r :: r in before ==> unchanged(r);
    assert forall r :: r in behind ==> unchanged(r);
  }

  lemma OwnSubset(all: seq<Segment>, some: seq<Segment>, buf: Buffer)
    requires OwnArray(buf, all) && forall s :: s in some ==> s in all
    ensures OwnArray(buf, some)
  {
    forall g, i | 0 <= g < |some| && 0 <= i < |some[g].chain| && some[g].chain[i] != buf
      ensures some[g].chain[i].dat != buf.dat
    {
      assert some[g] in some;
      var h :| 0 <= h < |all| && all[h] == some[g];
    }
  }

  lemma FlatTwo(a: seq<byte>, b: seq<byte>)
    ensures Flat([a, b]) == a + b
  {
    FlatAppend([a], [b]);
    assert [a] + [b] == [a, b];
    assert Flat([a]) == a + Flat([]) && Flat([b]) == b + Flat([]);
  }

  lemma NewSegments(segs: seq<Segment>, h: Segment, b: Segment)
    requires AllPlaced(segs + [b, h]) && Sound(segs + [b, h]) && DistinctSegs(segs)
    requires h.InPlace() && b.InPlace() && h !in segs && b !in segs && h != b
    requires h.Cur() == 0 && b.Cur() == 0 && b.Bytes() != []
    ensures AllPlaced(segs) && Sound(segs) && AllPlaced([h, b]) && Sound([h, b]) && DistinctSegs(segs + [h, b])
    ensures ZeroFrom(Curs([h, b]), 0) && BodiesLeft(Rests([h, b])) && Flat(Wholes([h, b])) == h.Bytes() + b.Bytes()
  {
    hide Segment.InPlace, Segment.Valid, Segment.Bytes, Chains, Contents;
    var all := segs + [b, h];
    assert forall g :: 0 <= g < |segs| ==> all[g] == segs[g];
    assert all[|segs|] == b && all[|segs| + 1] == h;
    assert forall s :: s in segs || s in [h, b] ==> s in all;
    var w := Wholes([h, b]);
    assert w == [h.Bytes(), b.Bytes()];
    FlatTwo(h.Bytes(), b.Bytes());
  }

  /** MakeReply, for a queue. */
  method MakeReplyInQueue(head: seq<byte>, body: seq<byte>, buf: Buffer, ghost bs: seq<Buffer>,
                          ghost reqs: seq<Request>, ghost segs: seq<Segment>)
    returns (res: Response, last: Buffer, ghost more: seq<Buffer>)
    requires segs == Segs(reqs) && Ready(reqs) && Untouched(reqs) && IsTail(bs, buf) && OwnArray(buf, segs)
    requires body != []
    modifies buf, buf.dat
    ensures fresh(more) && IsTail(bs + more, last) && (last == buf || (fresh(last) && fresh(last.dat)))
    ensures segs == Segs(reqs) && Ready(reqs) && Untouched(reqs) && AllPlaced(segs)
    ensures OwnArray(last, segs + [res.body, res.head])
    ensures Lens(reqs) == old(Lens(reqs)) && Rests(segs) == old(Rests(segs)) && Wholes(segs) == old(Wholes(segs))
    ensures AllPlaced([res.head, res.body]) && Sound([res.head, res.body]) && DistinctSegs(segs + [res.head, res.body])
    ensures ZeroFrom(Curs([res.head, res.body]), 0) && BodiesLeft(Rests([res.head, res.body]))
    ensures Flat(Wholes([res.head, res.body])) == head + body && fresh(res.head) && fresh(res.body)
  {
    hide *;
    ReadyParts(reqs);
    res, last, more := MakeReply(head, body, buf, bs, segs);
    assert forall r :: r in reqs ==> unchanged(r);
    assert forall s :: s in segs ==> unchanged(s);
    NewSegments(segs, res.head, res.body);
    ReadyFrom(reqs);
  }

  // ----- AcceptConnection -------------------------------------------------------------------------------------------

  ghost predicate DistinctReqs(reqs: seq<Request>) { forall i, j :: 0 <= i < j < |reqs| ==> reqs[i] != reqs[j] }

  lemma {:induction false} SegsAppend(a: seq<Request>, b: seq<Request>)
    ensures Segs(a + b) == Segs(a) + Segs(b)
    decreases |b|
  {
    if b == [] {
      assert a + b == a;
    } else {
      var n := |b| - 1;
      assert (a + b)[..|a + b| - 1] == a + b[..n];
      SegsAppend(a, b[..n]);
    }
  }

  lemma SegsSplit(reqs: seq<Request>, k: nat)
    requires k <= |reqs|
    ensures Segs(reqs) == Segs(reqs[..k]) + Segs(reqs[k..])
  {
    assert reqs == reqs[..k] + reqs[k..];
    SegsAppend(reqs[..k], reqs[k..]);
  }

  /** Segments alternate between heads and bodies, and some byte of each body is left. */
  ghost predicate BodiesLeft(rests: seq<seq<byte>>)
  {
    forall g :: 0 <= g < |rests| && g % 2 == 1 ==> rests[g] != []
  }

  /** Where the replies of the first requests end in the pending bytes. */
  ghost predicate EndsOf(reqs: seq<Request>, rests: seq<seq<byte>>, ends: seq<nat>)
    reads reqs
  {
    0 < |ends| <= |reqs| + 1 && forall k :: 0 <= k < |ends| ==> EndAt(reqs[..k], rests, ends[k])
  }

  ghost predicate EndAt(reqs: seq<Request>, rests: seq<seq<byte>>, end: nat)
    reads reqs
  {
    |Segs(reqs)| <= |rests| && end == Base(rests, |Segs(reqs)|)
  }

  lemma BaseZero(rests: seq<seq<byte>>)
    ensures Base(rests, 0) == 0
  {
  }

  lemma EndsAscend(reqs: seq<Request>, rests: seq<seq<byte>>, ends: seq<nat>)
    requires EndsOf(reqs, rests, ends)
    ensures Ascending(ends)
  {
    hide Base, Flat;
    assert EndAt(reqs[..0], rests, ends[0]);
    BaseZero(rests);
    forall k, l | 0 <= k <= l < |ends| ensures ends[k] <= ends[l] {
      assert EndAt(reqs[..k], rests, ends[k]) && EndAt(reqs[..l], rests, ends[l]);
      SegsSplit(reqs[..l], k);
      assert reqs[..l][..k] == reqs[..k];
      BaseMonotone(rests, |Segs(reqs[..k])|, |Segs(reqs[..l])|);
    }
  }

  /** The segments of request i are in the list after those of the requests before it. */
  lemma SegsAt(reqs: seq<Request>, i: nat)
    requires i < |reqs|
    ensures var g := |Segs(reqs[..i])|;
            && |Segs(reqs[..i + 1])| == g + |SegsOf(reqs[i])| <= |Segs(reqs)|
            && Segs(reqs)[g..g + |SegsOf(reqs[i])|] == SegsOf(reqs[i])
  {
    SegsSplit(reqs, i + 1);
    assert reqs[..i + 1][..i] == reqs[..i];
  }

  /** A request with its reply, after the requests before it. */
  lemma ReplyAt(reqs: seq<Request>, i: nat, rests: seq<seq<byte>>, ends: seq<nat>)
    requires i < |reqs| && |rests| == |Segs(reqs)| && EndsOf(reqs, rests, ends) && |ends| == i + 1
    requires reqs[i].done && reqs[i].res != null
    ensures var g := |Segs(reqs[..i])|;
            && g + 1 < |rests| && Segs(reqs)[g] == reqs[i].res.head && Segs(reqs)[g + 1] == reqs[i].res.body
            && ends[i] == Base(rests, g)
            && EndsOf(reqs, rests, ends + [ends[i] + |rests[g]| + |rests[g + 1]|])
  {
    hide Base, Flat, Segs;
    var g := |Segs(reqs[..i])|;
    assert EndAt(reqs[..i], rests, ends[i]);
    SegsAt(reqs, i);
    assert Segs(reqs)[g..g + 2][0] == Segs(reqs)[g] && Segs(reqs)[g..g + 2][1] == Segs(reqs)[g + 1];
    FlatAt(rests, g);
    FlatAt(rests, g + 1);
    OneMoreEnd(reqs, rests, ends, ends[i] + |rests[g]| + |rests[g + 1]|);
  }

  lemma NoReplyAt(reqs: seq<Request>, i: nat, rests: seq<seq<byte>>, ends: seq<nat>)
    requires i < |reqs| && |rests| == |Segs(reqs)| && EndsOf(reqs, rests, ends) && |ends| == i + 1
    requires SegsOf(reqs[i]) == []
    ensures EndsOf(reqs, rests, ends + [ends[i]])
  {
    hide Base, Flat, Segs;
    assert EndAt(reqs[..i], rests, ends[i]);
    SegsAt(reqs, i);
    OneMoreEnd(reqs, rests, ends, ends[i]);
  }

  lemma OneMoreEnd(reqs: seq<Request>, rests: seq<seq<byte>>, ends: seq<nat>, end: nat)
    requires EndsOf(reqs, rests, ends) && |ends| <= |reqs| && EndAt(reqs[..|ends|], rests, end)
    ensures EndsOf(reqs, rests, ends + [end])
  {
    hide Base, EndAt;
  }

  /** The entries of the next reply are its own. */
  lemma {:induction false} OwnedAppend(reqs: seq<Request>, a: seq<IOVec>, owner: seq<nat>, ends: seq<nat>,
                                       b: seq<IOVec>, total: nat)
    requires 0 < |ends| <= |reqs| && Owned(reqs, a, owner, ends) && VTotal(a) == ends[|ends| - 1]
    requires Marked(b, total, reqs[|ends| - 1])
    ensures Owned(reqs, a + b, owner + seq(|b|, _ => |ends| - 1), ends + [ends[|ends| - 1] + total])
  {
    hide VTotal;
    var k := |ends| - 1;
    var vecs, owner1, ends1 := a + b, owner + seq(|b|, _ => k), ends + [ends[k] + total];
    forall j | 0 <= j < |vecs| ensures OwnedAt(reqs, vecs[j], VTotal(vecs[..j]), owner1[j], ends1) {
      if j < |a| {
        assert vecs[..j] == a[..j];
        assert OwnedAt(reqs, a[j], VTotal(a[..j]), owner[j], ends);
      } else {
        assert vecs[..j] == a + b[..j - |a|];
        VTotalAppend(a, b[..j - |a|]);
        assert MarkedAt(b[j - |a|], VTotal(b[..j - |a|]), total, reqs[k]);
      }
    }
  }

  lemma OwnedLonger(reqs: seq<Request>, vecs: seq<IOVec>, owner: seq<nat>, ends: seq<nat>, more: nat)
    requires Owned(reqs, vecs, owner, ends) && |ends| <= |reqs|
    ensures Owned(reqs, vecs, owner, ends + [more])
  {
    hide VTotal;
    forall j | 0 <= j < |vecs| ensures OwnedAt(reqs, vecs[j], VTotal(vecs[..j]), owner[j], ends + [more]) {
      assert OwnedAt(reqs, vecs[j], VTotal(vecs[..j]), owner[j], ends);
    }
  }

  ghost predicate Ready(reqs: seq<Request>)
    reads reqs, Segs(reqs), Chains(Segs(reqs)), Contents(Segs(reqs))
  {
    && DistinctReqs(reqs) && DistinctSegs(Segs(reqs)) && Sound(Segs(reqs)) && AllPlaced(Segs(reqs))
    && BodiesLeft(Rests(Segs(reqs)))
  }

  /** What fill found, for the proof of what write does with it. */
  datatype Filled = Filled(spots: seq<Spot>, owner: seq<nat>, ends: seq<nat>)

  ghost predicate FilledOk(reqs: seq<Request>, segs: seq<Segment>, curs: seq<nat>, rests: seq<seq<byte>>,
                           vecs: seq<IOVec>, f: Filled)
    requires AllPlaced(segs) && |curs| == |rests|
    reads reqs, segs
  {
    && AllSpots(segs, vecs, f.spots) && InStream(curs, rests, vecs, f.spots, 0)
    && Owned(reqs, vecs, f.owner, f.ends) && EndsOf(reqs, rests, f.ends)
    && 0 < |f.ends| <= |reqs| + 1 && (forall k :: 0 <= k < |f.ends| - 1 ==> reqs[k].done)
    && VTotal(vecs) <= f.ends[|f.ends| - 1]
  }

  /** The ready replies in request order, sent or not. */
  ghost function Replies(reqs: seq<Request>): seq<byte>
    requires AllPlaced(Segs(reqs))
    reads reqs, Segs(reqs)
  {
    Flat(Wholes(Segs(reqs)))
  }

  /** No byte of a reply that comes after an unanswered request was sent. */
  ghost predicate Untouched(reqs: seq<Request>)
    requires AllPlaced(Segs(reqs))
    reads reqs, Segs(reqs)
  {
    forall k :: 0 <= k < |reqs| && !reqs[k].done ==> ZeroFrom(Curs(Segs(reqs)), |Segs(reqs[..k])|)
  }

  ghost predicate ZeroFrom(curs: seq<nat>, g: nat) { forall h :: g <= h < |curs| ==> curs[h] == 0 }

  lemma NotInChains(segs: seq<Segment>, o: object)
    requires o is AcceptConnection || o is Request
    ensures o !in Chains(segs) && o !in Contents(segs)
  {
    assert forall x :: x in Chains(segs) ==> x is Buffer;
    assert forall x :: x in Contents(segs) ==> x is array<byte>;
    assert !(o is Buffer) && !(o is array<byte>);
  }

  class AcceptConnection {
    var requests: seq<Request>
    ghost var sent: seq<byte>        // all that writev took
    ghost var log: seq<seq<byte>>    // the reply of every request there was, in request order; [] if none yet

    /** How many requests were popped; the queue holds those behind them. */
    ghost function Popped(): int
      reads this
    {
      |log| - |requests|
    }

    /** The queue's segments hold the replies of its requests, and what was sent and what is
        pending are all replies, in request order. */
    ghost predicate Valid()
      reads this, requests, Segs(requests), Chains(Segs(requests)), Contents(Segs(requests))
    {
      && Ready(requests) && Untouched(requests)
      && Popped() >= 0 && Logged(Lens(requests), Wholes(Segs(requests)), log[Popped()..])
      && sent + Pending(requests) == Flat(log)
    }

    constructor ()
      ensures Valid() && requests == [] && sent == [] && log == []
    {
      requests, sent, log := [], [], [];
      new;
      hide *;
      NoRequests();
      ValidFrom();
    }

    method PopFront(ghost segs: seq<Segment>) returns (req: Request)
      requires requests != [] && Sound(segs) && AllPlaced(segs)
      modifies this`requests
      ensures requests == old(requests)[1..] && req == old(requests)[0] && Sound(segs) && AllPlaced(segs)
    {
      hide Sound, Chains, Contents;
      NotInChains(segs, this);
      req := requests[0];
      requests := requests[1..];
    }

    /** fill: entries for the replies at the front, up to the first request that is not
        done; done requests without a reply leave the front. */
    method Fill(max: nat, ghost segs: seq<Segment>, ghost curs: seq<nat>, ghost rests: seq<seq<byte>>)
      returns (vecs: seq<IOVec>, ghost f: Filled, ghost p: nat)
      requires max > 0 && segs == Segs(requests) && Sound(segs) && AllPlaced(segs) && BodiesLeft(rests)
      requires curs == Curs(segs) && rests == Rests(segs)
      modifies this`requests
      ensures p <= |old(requests)| && requests == old(requests)[p..] && forall k :: 0 <= k < p ==> old(requests)[k].done
      ensures segs == Segs(requests) && Sound(segs) && AllPlaced(segs)
      ensures |vecs| <= max && FilledOk(requests, segs, curs, rests, vecs, f)
      ensures |vecs| < max ==>
              VTotal(vecs) == f.ends[|f.ends| - 1] && (|f.ends| > |requests| || !requests[|f.ends| - 1].done)
      ensures vecs != [] && max > 1 ==> VTotal(vecs) > 0
    {
      hide *;
      vecs, f, p := [], Filled([], [], [0]), 0;
      var i := 0;
      FillNothing(requests, segs, curs, rests);
      while i < |requests| && |vecs| < max
        invariant p <= |old(requests)| && requests == old(requests)[p..]
        invariant forall k :: 0 <= k < p ==> old(requests)[k].done
        invariant segs == Segs(requests) && Sound(segs) && AllPlaced(segs)
        invariant i <= |requests| && |vecs| <= max && |f.ends| == i + 1 && (vecs == [] ==> i == 0)
        invariant FilledOk(requests, segs, curs, rests, vecs, f)
        invariant (|vecs| < max ==> VTotal(vecs) == f.ends[i]) && (vecs != [] && max > 1 ==> VTotal(vecs) > 0)
        decreases |requests| - i
      {
        if !requests[i].done { break; }
        var res := requests[i].res;
        if res != null {
          ghost var g := NextReply(requests, segs, curs, rests, vecs, f);
          var more, moreSpots := FillResponse(res, max - |vecs|, requests[i], segs, g, curs, rests);
          f := FillMore(requests, segs, curs, rests, vecs, f, more, moreSpots, g);
          vecs := vecs + more;
          i := i + 1;
        } else if |vecs| == 0 {
          FirstEmpty(requests);
          var _ := PopFront(segs);
          p := p + 1;
          FillNothing(requests, segs, curs, rests);
          f := Filled([], [], [0]);
        } else {
          f := SkipDone(requests, segs, curs, rests, vecs, f);
          i := i + 1;
        }
      }
    }

    /** The inner loop of write: pops up to and including the request of an entry. */
    method PopThrough(req: Request, ghost k: nat, ghost segs: seq<Segment>)
      requires DistinctReqs(requests) && k < |requests| && requests[k] == req && Sound(segs) && AllPlaced(segs)
      modifies this`requests
      ensures requests == old(requests)[k + 1..] && Sound(segs) && AllPlaced(segs)
    {
      hide Sound, AllPlaced;
      ghost var n := 0;
      while requests != []
        invariant n <= k && requests == old(requests)[n..] && Sound(segs) && AllPlaced(segs)
        decreases |requests|
      {
        var front := PopFront(segs);
        if front == req { break; }
        n := n + 1;
      }
    }

    method PopReply(req: Request, ghost segs: seq<Segment>, ghost reqs: seq<Request>, ghost p: nat, ghost p': nat)
      requires DistinctReqs(reqs) && p < p' <= |reqs| && requests == reqs[p..] && req == reqs[p' - 1]
      requires Sound(segs) && AllPlaced(segs)
      modifies this`requests
      ensures requests == reqs[p'..] && Sound(segs) && AllPlaced(segs)
      ensures Wholes(segs) == old(Wholes(segs)) && Curs(segs) == old(Curs(segs))
      ensures ChainList(segs) == old(ChainList(segs))
    {
      hide Sound, AllPlaced;
      assert reqs[p..][p' - p..] == reqs[p'..];
      PopThrough(req, p' - 1 - p, segs);
    }

    /** A turn of the loop of write: one entry, of which `left` bytes or all were taken. */
    method SendVec(vecs: seq<IOVec>, i: nat, left: nat, ghost segs: seq<Segment>, ghost curs: seq<nat>,
                   ghost rests: seq<seq<byte>>, ghost wholes: seq<seq<byte>>, ghost f: Filled, ghost reqs: seq<Request>,
                   ghost p: nat, ghost t: nat)
      returns (ghost p': nat)
      requires DistinctReqs(reqs) && DistinctSegs(segs) && Sound(segs) && AllPlaced(segs) && Wholes(segs) == wholes
      requires |curs| == |rests| == |wholes| && Traced(reqs, curs, rests, wholes, vecs, f)
      requires i < |vecs| && |f.owner| == |f.spots| == |vecs| && t == VTotal(vecs[..i]) && AllSpots(segs, vecs, f.spots)
      requires CursAt(curs, rests, Curs(segs), t) && Settled(f.ends, p, t) && p <= |reqs| && requests == reqs[p..]
      modifies this`requests, segs
      ensures Sound(segs) && AllPlaced(segs) && AllSpots(segs, vecs, f.spots) && Wholes(segs) == wholes
      ensures ChainList(segs) == old(ChainList(segs))
      ensures VTotal(vecs[..i + 1]) == t + |vecs[i].piece.dat|
      ensures var t' := if |vecs[i].piece.dat| <= left then VTotal(vecs[..i + 1]) else t + left;
              CursAt(curs, rests, Curs(segs), t') && Settled(f.ends, p', t') && p' <= |reqs| && requests == reqs[p'..]
    {
      hide *;
      var v := vecs[i];
      var n := |v.piece.dat|;
      var m := if n <= left then n else left;
      ghost var before := Curs(segs);
      SeekVec(segs, vecs, f.spots, i, m);
      WriteStep(reqs, curs, rests, wholes, vecs, f, i, p, t, m, before);
      p' := p;
      if v.req != null && n <= left {
        p' := f.owner[i] + 1;
        PopReply(v.req, segs, reqs, p, p');
      }
    }

    /** write, given what writev returned: each entry's segment is sought, and the requests
        whose replies went out are popped. */
    method Write(vecs: seq<IOVec>, num: int, ghost segs: seq<Segment>, ghost curs: seq<nat>,
                 ghost rests: seq<seq<byte>>, ghost f: Filled)
      returns (ok: bool, ghost p: nat)
      requires DistinctReqs(requests) && DistinctSegs(segs) && Sound(segs) && AllPlaced(segs)
      requires curs == Curs(segs) && rests == Rests(segs) && FilledOk(requests, segs, curs, rests, vecs, f)
      requires num <= VTotal(vecs)
      modifies this`requests, segs
      ensures Sound(segs) && AllPlaced(segs)
      ensures Wholes(segs) == old(Wholes(segs)) && ChainList(segs) == old(ChainList(segs))
      ensures CursAt(curs, rests, Curs(segs), Sent(num))
      ensures Settled(f.ends, p, Sent(num)) && p <= |old(requests)| && requests == old(requests)[p..]
      ensures vecs != [] ==> (ok <==> num == VTotal(vecs) && vecs[|vecs| - 1].piece.dat != [])
    {
      hide *;
      p := 0;
      WriteStart(requests, segs, curs, rests, vecs, f);
      if num <= 0 {
        ok := num == 0 && |vecs| == 0;
        WriteEnd(vecs, 0);
        LastCounts(vecs);
        return;
      }
      ghost var reqs, wholes := requests, Wholes(segs);
      ghost var t := 0;
      var left := num;
      var i := 0;
      while i < |vecs| && left > 0
        invariant i <= |vecs| && t <= num
        invariant (if left >= 0 then left == num - t && t == VTotal(vecs[..i]) else t == num < VTotal(vecs[..i]))
        invariant i > 0 && left <= 0 ==> vecs[i - 1].piece.dat != []
        invariant Sound(segs) && AllPlaced(segs) && AllSpots(segs, vecs, f.spots) && Wholes(segs) == wholes
        invariant ChainList(segs) == old(ChainList(segs))
        invariant CursAt(curs, rests, Curs(segs), t)
        invariant Settled(f.ends, p, t) && p <= |reqs| && requests == reqs[p..]
      {
        p := SendVec(vecs, i, left, segs, curs, rests, wholes, f, reqs, p, t);
        t := if |vecs[i].piece.dat| <= left then t + |vecs[i].piece.dat| else t + left;
        left := left - |vecs[i].piece.dat|;
        i := i + 1;
      }
      ok := i == |vecs| && left == 0;
      WriteEnd(vecs, i);
    }

    /** writev and write. `answer` is what writev would return for enough bytes; negative
        is an error. */
    method WriteFilled(vecs: seq<IOVec>, answer: int, ghost segs: seq<Segment>, ghost curs: seq<nat>,
                       ghost rests: seq<seq<byte>>, ghost wholes: seq<seq<byte>>, ghost f: Filled)
      returns (ok: bool, ghost p: nat)
      requires segs == Segs(requests) && DistinctReqs(requests) && DistinctSegs(segs) && Sound(segs) && AllPlaced(segs)
      requires curs == Curs(segs) && rests == Rests(segs) && wholes == Wholes(segs)
      requires FilledOk(requests, segs, curs, rests, vecs, f)
      requires 0 < |f.ends| && VTotal(vecs) <= f.ends[|f.ends| - 1] && Before(requests, curs, rests, wholes, f.ends)
      modifies this`requests, segs
      ensures p <= |old(requests)| && requests == old(requests)[p..] && Ready(requests) && Untouched(requests)
      ensures Taken(vecs, answer) <= |Flat(rests)| && Pending(requests) == Flat(rests)[Taken(vecs, answer)..]
      ensures |Segs(old(requests)[..p])| <= |wholes| && Wholes(Segs(requests)) == wholes[|Segs(old(requests)[..p])|..]
      ensures (forall k :: 0 <= k < p ==> old(requests)[k].done) && ChainList(segs) == old(ChainList(segs))
      ensures vecs != [] ==> (ok <==> InFull(vecs, answer))
      ensures (vecs == [] || InFull(vecs, answer)) && VTotal(vecs) == f.ends[|f.ends| - 1] ==>
                (|f.ends| > |old(requests)| || !old(requests)[|f.ends| - 1].done ==> AllOut(requests))
    {
      hide *;
      ghost var reqs := requests;
      var num := if answer <= VTotal(vecs) then answer else VTotal(vecs);
      ghost var n := Taken(vecs, answer);
      TakenIs(vecs, answer, num);
      ok, p := Write(vecs, num, segs, curs, rests, f);
      assert forall r :: r in reqs ==> unchanged(r);
      QueueAfter(reqs, curs, rests, wholes, f.ends, segs, p, n);
      if (vecs == [] || InFull(vecs, answer)) && VTotal(vecs) == f.ends[|f.ends| - 1] &&
         (|f.ends| > |reqs| || !reqs[|f.ends| - 1].done)
      {
        AllOutLater(reqs, curs, rests, wholes, f.ends, p, n);
      }
    }

    /** One turn of the loop of writeEvent, with the vector it fills. */
    method WriteOnce(max: nat, answer: int, ghost all: seq<Request>, ghost segs: seq<Segment>,
                     ghost rests: seq<seq<byte>>, ghost wholes: seq<seq<byte>>)
      returns (len: nat, ok: bool, ghost vecs: seq<IOVec>, ghost p: nat)
      requires max > 0 && Ready(requests) && Untouched(requests)
      requires all == requests && segs == Segs(requests) && rests == Rests(segs) && wholes == Wholes(segs)
      modifies this`requests, segs
      ensures p <= |all| && requests == all[p..] && Ready(requests) && Untouched(requests)
      ensures (forall k :: 0 <= k < p ==> all[k].done) && ChainList(segs) == old(ChainList(segs))
      ensures VData(vecs) <= Flat(rests) && Pending(requests) == Flat(rests)[Taken(vecs, answer)..]
      ensures |Segs(all[..p])| <= |wholes| && Wholes(Segs(requests)) == wholes[|Segs(all[..p])|..]
      ensures len == |vecs| <= max && (len > 0 && max > 1 ==> VTotal(vecs) > 0)
      ensures len > 0 ==> (ok <==> InFull(vecs, answer))
      ensures (len == 0 || (ok && len < max)) ==> AllOut(requests)
    {
      hide *;
      ReadyParts(requests);
      ghost var curs := Curs(segs);
      var vs, f, p0 := Fill(max, segs, curs, rests);
      len, vecs := |vs|, vs;
      VectorIsPending(requests, segs, curs, rests, vecs, f);
      BeforeWrite(all, p0, segs, curs, rests, wholes, vecs, f);
      ghost var p1;
      ok, p1 := WriteFilled(vs, answer, segs, curs, rests, wholes, f);
      p := p0 + p1;
      assert forall r :: r in all ==> unchanged(r);
      PoppedSegs(all, p0, p1);
      PoppedDone(all, p0, p1);
    }

    /** In every state: what was sent is a prefix of all the replies in request order, and a
        request was popped only after the last byte of its reply was sent. */
    lemma SentInOrder()
      requires Valid()
      ensures AllPlaced(Segs(requests)) && 0 <= Popped() <= |log| && Flat(log[..Popped()]) <= sent <= Flat(log)
      ensures Pending(requests) == Flat(log)[|sent|..]
      ensures Flat(log[Popped()..]) == Replies(requests)
    {
      hide Base, Flat, AllPlaced, Sound, Rests, Wholes, Segs, DistinctReqs, DistinctSegs, BodiesLeft, Untouched, Logged;
      hide Lens;
      RestsOfWholes(Segs(requests));
      ShorterRests(Rests(Segs(requests)), Wholes(Segs(requests)));
      LogTotal(Lens(requests), Wholes(Segs(requests)), log[Popped()..]);
      FlatAppend(log[..Popped()], log[Popped()..]);
      assert log == log[..Popped()] + log[Popped()..];
      PrefixOfSum(sent, Pending(requests), Flat(log[..Popped()]), Replies(requests));
    }

    /** Nothing is sent of what stands behind the first unanswered request; and when no reply
        stands before it, all that did is sent. */
    lemma SentUpTo(f: nat)
      requires Valid() && f <= |requests| && (f < |requests| ==> !requests[f].done)
      ensures 0 <= Popped() && Popped() + |requests| == |log| && sent <= Flat(log[..Popped() + f])
      ensures (forall k :: 0 <= k < f ==> requests[k].res == null) ==>
                && sent == Flat(log[..Popped() + f])
                && forall r :: Popped() <= r < Popped() + f ==> log[r] == []
    {
      hide Base, Flat, AllPlaced, Sound, Segs, DistinctReqs, DistinctSegs, BodiesLeft, Untouched, Logged, Lens;
      ValidParts();
      UntouchedFrom(requests, f);
      UpTo(Lens(requests), Wholes(Segs(requests)), Rests(Segs(requests)), log, Popped(), sent, f);
      if forall k :: 0 <= k < f ==> requests[k].res == null {
        NoSegs(requests, f);
        EmptyLog(Lens(requests), Wholes(Segs(requests)), log[Popped()..], f);
        forall r | Popped() <= r < Popped() + f ensures log[r] == [] { assert log[Popped()..][r - Popped()] == []; }
      }
    }

    /** A turn, with the account of what was sent. */
    method Turn(max: nat, answer: int) returns (len: nat, ok: bool, ghost vecs: seq<IOVec>, ghost p: nat)
      requires max > 0 && Valid()
      modifies this, Segs(requests)
      ensures Valid() && AllPlaced(Segs(requests)) && p <= |old(requests)| && requests == old(requests)[p..]
      ensures log == old(log)
      ensures forall k :: 0 <= k < p ==> old(requests)[k].done
      ensures ChainList(old(Segs(requests))) == old(ChainList(Segs(requests)))
      ensures forall s :: s in Segs(requests) ==> s in old(Segs(requests))
      ensures VData(vecs) <= old(Pending(requests)) && sent == old(sent) + VData(vecs)[..Taken(vecs, answer)]
      ensures Pending(requests) == old(Pending(requests))[Taken(vecs, answer)..]
      ensures len == |vecs| <= max && (len > 0 && max > 1 ==> VTotal(vecs) > 0)
      ensures len > 0 ==> (ok <==> InFull(vecs, answer))
      ensures (len == 0 || (ok && len < max)) ==> AllOut(requests)
    {
      hide *;
      ValidParts();
      PendingIs(requests);
      ghost var all, segs, tail := requests, Segs(requests), log[Popped()..];
      ghost var rests, wholes := Rests(segs), Wholes(segs);
      ghost var lens := Lens(all);
      len, ok, vecs, p := WriteOnce(max, answer, all, segs, rests, wholes);
      ReadyParts(requests);
      PendingIs(requests);
      PoppedIs();
      assert forall r :: r in all ==> unchanged(r);
      LensLater(all, p);
      LoggedLater(lens, wholes, tail, p);
      Regroup(sent, rests, vecs, answer, Flat(log));
      assert log[Popped()..] == tail[p..];
      KeptSegs(all, p);
      Account(VData(vecs)[..Taken(vecs, answer)], tail[p..]);
    }

    /** writeEvent: fills and writes until writev takes less than all, or until a vector was
        not full. `answers` are what writev returns, turn by turn, and `turns` the vectors. */
    method WriteEvent(max: nat, answers: nat -> int)
      returns (finished: bool, ghost turns: seq<seq<IOVec>>, ghost p: nat)
      requires max > 0 && Valid()
      modifies this, Segs(requests)
      ensures Valid() && p <= |old(requests)| && requests == old(requests)[p..] && log == old(log)
      ensures forall k :: 0 <= k < p ==> old(requests)[k].done
      ensures ChainList(old(Segs(requests))) == old(ChainList(Segs(requests)))
      ensures forall s :: s in Segs(requests) ==> s in old(Segs(requests))
      ensures sent == old(sent) + AllTaken(turns, answers)
      ensures turns != [] && forall i :: 0 <= i < |turns| - 1 ==> |turns[i]| == max && InFull(turns[i], answers(i))
      ensures forall i :: 0 <= i < |turns| ==> |turns[i]| <= max && (turns[i] != [] && max > 1 ==> VTotal(turns[i]) > 0)
      ensures var last := |turns| - 1;
              finished <==> turns[last] == [] || InFull(turns[last], answers(last))
      ensures finished ==> AllOut(requests)
    {
      hide *;
      ValidParts();
      ghost var all, before, pending := requests, sent, Pending(requests);
      ghost var segs := Segs(requests);
      ghost var n := 0;
      turns, p, finished := [], 0, true;
      var turn := 0;
      NoTurns(answers);
      while true
        invariant Valid() && AllPlaced(Segs(requests)) && log == old(log)
        invariant p <= |all| && requests == all[p..] && forall k :: 0 <= k < p ==> all[k].done
        invariant sent == before + AllTaken(turns, answers) && |turns| == turn
        invariant n <= |pending| && Pending(requests) == pending[n..]
        invariant Segs(all) == segs && ChainList(segs) == old(ChainList(segs))
        invariant forall s :: s in Segs(requests) ==> s in segs
        invariant forall i :: 0 <= i < turn ==>
                  |turns[i]| == max && InFull(turns[i], answers(i)) && (max > 1 ==> VTotal(turns[i]) > 0)
        decreases |pending| - n
      {
        ghost var vecs, q;
        var len, ok;
        SegsSplit(all, p);
        ghost var now := Segs(requests);
        assert forall i :: 0 <= i < |now| ==> now[i] in segs;
        len, ok, vecs, q := Turn(max, answers(turn));
        assert forall r :: r in all ==> unchanged(r);
        TurnsAdd(before, pending, n, all, p, q, turns, vecs, answers);
        PoppedDone(all, p, q);
        n, p, turn, turns := n + Taken(vecs, answers(turn)), p + q, turn + 1, turns + [vecs];
        if len == 0 {
          finished := true;
          break;
        }
        finished := ok;
        if !finished || len < max { break; }
      }
    }

    /** A parsed request joins the queue. */
    method Push(req: Request)
      requires Valid() && req !in requests && !req.done
      modifies this`requests, this`log
      ensures Valid() && requests == old(requests) + [req] && log == old(log) + [[]]
      ensures Segs(requests) == old(Segs(requests)) && Popped() == old(Popped()) >= 0
    {
      hide Base, Flat, AllPlaced, Sound, Rests, Wholes, DistinctSegs, BodiesLeft, Chains, Contents, Segs, Untouched;
      hide Lens, Logged;
      NotInChains(Segs(requests), this);
      PushKeeps(requests, req);
      LoggedPush(requests, req, log[Popped()..]);
      FlatEmptyLast(log);
      assert (log + [[]])[Popped()..] == log[Popped()..] + [[]];
      requests := requests + [req];
      log := log + [[]];
    }

    /** The reply of request k, of the segments `segs`, is there; or it is done without one. */
    method Answer(k: nat, res: Response?, ghost segs: seq<Segment>)
      requires Valid() && k < |requests| && !requests[k].done
      requires segs == if res == null then [] else [res.head, res.body]
      requires DistinctSegs(Segs(requests) + segs) && Sound(segs) && AllPlaced(segs)
      requires ZeroFrom(Curs(segs), 0) && BodiesLeft(Rests(segs))
      modifies requests[k], this`log
      ensures 0 <= Popped() == old(Popped()) && Popped() + k < |old(log)|
      ensures Valid() && requests[k].done && requests[k].res == res
      ensures log == old(log)[Popped() + k := old(Flat(Wholes(segs)))]
      ensures forall i :: 0 <= i < |requests| && i != k ==> unchanged(requests[i])
    {
      hide *;
      ValidParts();
      PendingIs(requests);
      ghost var a, b := Segs(requests[..k]), Segs(requests[k + 1..]);
      ghost var all, curs, n := a + segs + b, Curs(Segs(requests)), Popped();
      BeforeAnswer(requests, k, segs, all, log, n, sent);
      NotAround(requests, k);
      SetReply(requests[k], res, requests[..k], requests[k + 1..], all, segs, curs);
      AfterAnswer(requests, k, a, segs, b, curs);
      PendingIs(requests);
      Relog(log[n + k := Flat(Wholes(segs))], n);
    }

    ghost method Relog(log': seq<seq<byte>>, n: nat)
      requires Ready(requests) && Untouched(requests) && |log'| == n + |requests|
      requires Logged(Lens(requests), Wholes(Segs(requests)), log'[n..]) && sent + Pending(requests) == Flat(log')
      modifies this`log
      ensures Valid() && log == log' && Popped() == n
    {
      hide *;
      ReadyParts(requests);
      NotInChains(Segs(requests), this);
      log := log';
      PoppedIs();
      ValidFrom();
    }

    /** Bytes are read into a buffer, or the next reply is made in it, while replies that wait
        lie in the same buffer: nothing about them changes. */
    method Grow(buf: Buffer, data: seq<byte>, ghost bs: seq<Buffer>) returns (last: Buffer, ghost more: seq<Buffer>)
      requires Valid() && IsTail(bs, buf) && OwnArray(buf, Segs(requests))
      modifies buf, buf.dat
      ensures fresh(more) && IsTail(bs + more, last) && (last == buf || (fresh(last) && fresh(last.dat)))
      ensures Flat(Data(bs + more)) == old(Flat(Data(bs))) + data
      ensures Valid() && OwnArray(last, Segs(requests)) && Pending(requests) == old(Pending(requests))
    {
      hide *;
      ValidParts();
      PendingIs(requests);
      last, more := AppendToQueue(buf, data, bs, requests, Segs(requests));
      PendingIs(requests);
      ValidFrom();
    }

    /** A reply to request k is made: its body in a buffer that other replies may lie in, and
        its head, if it has one, in a buffer of its own. */
    method Respond(k: nat, head: seq<byte>, body: seq<byte>, buf: Buffer, ghost bs: seq<Buffer>)
      returns (last: Buffer, ghost more: seq<Buffer>)
      requires Valid() && k < |requests| && !requests[k].done && body != []
      requires IsTail(bs, buf) && OwnArray(buf, Segs(requests))
      modifies requests[k], this`log, buf, buf.dat
      ensures 0 <= Popped() == old(Popped()) && Popped() + k < |old(log)|
      ensures fresh(more) && IsTail(bs + more, last) && (last == buf || (fresh(last) && fresh(last.dat)))
      ensures OwnArray(last, Segs(requests)) && forall s :: s in Segs(requests) ==> s in old(Segs(requests)) || fresh(s)
      ensures requests[k].done && requests[k].res != null
      ensures log == old(log)[Popped() + k := head + body]
      ensures forall i :: 0 <= i < |requests| && i != k ==> unchanged(requests[i])
      ensures Valid()
    {
      hide *;
      ValidParts();
      ReadyParts(requests);
      PendingIs(requests);
      ghost var segs := Segs(requests);
      var res;
      res, last, more := MakeReplyInQueue(head, body, buf, bs, requests, segs);
      PendingIs(requests);
      ValidFrom();
      AnswerBeside(k, res, segs + [res.body, res.head], last);
    }

    /** A request is done and has no reply. */
    method Drop(k: nat)
      requires Valid() && k < |requests| && !requests[k].done
      modifies requests[k], this`log
      ensures 0 <= Popped() == old(Popped()) && Popped() + k < |old(log)|
      ensures Valid() && requests[k].done
      ensures log == old(log)[Popped() + k := []] && Segs(requests) == old(Segs(requests))
      ensures forall i :: 0 <= i < |requests| && i != k ==> unchanged(requests[i])
    {
      hide *;
      ValidParts();
      ReadyParts(requests);
      NoSegments(Segs(requests));
      ghost var a, b := Segs(requests[..k]), Segs(requests[k + 1..]);
      Unanswered(requests, k);
      NotAround(requests, k);
      Answer(k, null, []);
      assert a == Segs(requests[..k]) && b == Segs(requests[k + 1..]);
      Answered(requests, k);
      assert a + [] + b == a + b;
    }

    /** Answer, while buf goes on filling. */
    method AnswerBeside(k: nat, res: Response, ghost all: seq<Segment>, ghost buf: Buffer)
      requires Valid() && k < |requests| && !requests[k].done && all == Segs(requests) + [res.body, res.head]
      requires DistinctSegs(Segs(requests) + [res.head, res.body]) && Sound([res.head, res.body])
      requires AllPlaced([res.head, res.body])
      requires ZeroFrom(Curs([res.head, res.body]), 0) && BodiesLeft(Rests([res.head, res.body])) && OwnArray(buf, all)
      modifies requests[k], this`log
      ensures 0 <= Popped() == old(Popped()) && Popped() + k < |old(log)|
      ensures Valid() && requests[k].done && requests[k].res == res && OwnArray(buf, Segs(requests))
      ensures log == old(log)[Popped() + k := old(Flat(Wholes([res.head, res.body])))]
      ensures forall s :: s in Segs(requests) ==> s in all
      ensures forall i :: 0 <= i < |requests| && i != k ==> unchanged(requests[i])
    {
      hide *;
      ValidParts();
      ReadyParts(requests);
      ghost var a, b := Segs(requests[..k]), Segs(requests[k + 1..]);
      Unanswered(requests, k);
      NotAround(requests, k);
      Answer(k, res, [res.head, res.body]);
      assert forall s :: s in all ==> unchanged(s);
      assert a == Segs(requests[..k]) && b == Segs(requests[k + 1..]);
      Answered(requests, k);
      OwnSubset(all, Segs(requests), buf);
    }

    ghost method Account(taken: seq<byte>, tail: seq<seq<byte>>)
      requires Ready(requests) && Untouched(requests) && 0 <= Popped() && tail == log[Popped()..]
      requires Logged(Lens(requests), Wholes(Segs(requests)), tail)
      requires sent + taken + Pending(requests) == Flat(log)
      modifies this`sent
      ensures Valid() && AllPlaced(Segs(requests)) && sent == old(sent) + taken
      ensures Pending(requests) == old(Pending(requests))
    {
      hide Base, Flat, AllPlaced, Sound, Rests, Wholes, Segs, DistinctReqs, DistinctSegs, BodiesLeft, Untouched, Chains;
      hide Contents, Lens, Logged;
      NotInChains(Segs(requests), this);
      sent := sent + taken;
    }

    lemma ValidFrom()
      requires Ready(requests) && Untouched(requests) && 0 <= |log| - |requests|
      requires Logged(Lens(requests), Wholes(Segs(requests)), log[|log| - |requests|..])
      requires sent + Pending(requests) == Flat(log)
      ensures Valid()
    {
    }

    lemma PoppedIs()
      ensures Popped() == |log| - |requests|
    {
    }

    lemma ValidParts()
      requires Valid()
      ensures Ready(requests) && Untouched(requests) && AllPlaced(Segs(requests)) && 0 <= Popped() <= |log|
      ensures Popped() + |requests| == |log|
      ensures Logged(Lens(requests), Wholes(Segs(requests)), log[Popped()..])
      ensures sent + Pending(requests) == Flat(log)
    {
      hide Base, Flat, AllPlaced, Sound, Rests, Wholes, Segs, DistinctReqs, DistinctSegs, BodiesLeft, Untouched, Logged;
      hide Lens;
    }
  }

  lemma PendingIs(reqs: seq<Request>)
    requires AllPlaced(Segs(reqs))
    ensures Pending(reqs) == Flat(Rests(Segs(reqs)))
  {
  }

  lemma NoRequests()
    ensures Ready([]) && Untouched([]) && Logged(Lens([]), Wholes(Segs([])), []) && Pending([]) == [] == Flat([])
  {
    assert Segs([]) == [] && Lens([]) == [0] && Wholes([]) == [] && Rests([]) == [];
  }

  lemma ReadyFrom(reqs: seq<Request>)
    requires DistinctReqs(reqs) && DistinctSegs(Segs(reqs)) && Sound(Segs(reqs)) && AllPlaced(Segs(reqs))
    requires BodiesLeft(Rests(Segs(reqs)))
    ensures Ready(reqs)
  {
  }

  lemma KeptSegs(reqs: seq<Request>, p: nat)
    requires p <= |reqs|
    ensures forall s :: s in Segs(reqs[p..]) ==> s in Segs(reqs)
  {
    hide Segs;
    SegsSplit(reqs, p);
  }

  lemma NoSegments(segs: seq<Segment>)
    requires DistinctSegs(segs)
    ensures DistinctSegs(segs + []) && Sound([]) && AllPlaced([]) && ZeroFrom(Curs([]), 0) && BodiesLeft(Rests([]))
    ensures Flat(Wholes([])) == []
  {
    assert segs + [] == segs && |Wholes([])| == 0;
  }

  // ----- the log of replies --------------------------------------------------------------------------------------

  /** Where the replies of the requests begin in the list of segments; and the end. */
  ghost function Lens(reqs: seq<Request>): (lens: seq<int>)
    reads reqs
    ensures |lens| == |reqs| + 1
  {
    seq(|reqs| + 1, i requires 0 <= i <= |reqs| reads reqs => |Segs(reqs[..i])|)
  }

  /** Each reply of the log is what its segments hold. */
  ghost predicate Logged(lens: seq<int>, wholes: seq<seq<byte>>, tail: seq<seq<byte>>)
  {
    && |lens| == |tail| + 1 && lens[0] == 0 && lens[|tail|] == |wholes|
    && (forall i, j :: 0 <= i <= j < |lens| ==> lens[i] <= lens[j])
    && forall i :: 0 <= i < |tail| ==> LoggedAt(lens, wholes, tail[i], i)
  }

  ghost predicate LoggedAt(lens: seq<int>, wholes: seq<seq<byte>>, reply: seq<byte>, i: nat)
    requires i + 1 < |lens|
  {
    0 <= lens[i] <= lens[i + 1] <= |wholes| && reply == Flat(wholes[lens[i]..lens[i + 1]])
  }

  lemma {:induction false} LogUpTo(lens: seq<int>, wholes: seq<seq<byte>>, tail: seq<seq<byte>>, i: nat)
    requires Logged(lens, wholes, tail) && i <= |tail|
    ensures 0 <= lens[i] <= |wholes| && Flat(tail[..i]) == Flat(wholes[..lens[i]])
  {
    if i > 0 {
      LogUpTo(lens, wholes, tail, i - 1);
      assert tail[..i] == tail[..i - 1] + [tail[i - 1]];
      FlatAppend(tail[..i - 1], [tail[i - 1]]);
      assert Flat([tail[i - 1]]) == tail[i - 1] + Flat([]);
      assert LoggedAt(lens, wholes, tail[i - 1], i - 1);
      var x, y := lens[i - 1], lens[i];
      assert wholes[..y] == wholes[..x] + wholes[x..y];
      FlatAppend(wholes[..x], wholes[x..y]);
    }
  }

  /** The log is all that the segments hold. */
  lemma {:induction false} LogTotal(lens: seq<int>, wholes: seq<seq<byte>>, tail: seq<seq<byte>>)
    requires Logged(lens, wholes, tail)
    ensures Flat(tail) == Flat(wholes)
  {
    LogUpTo(lens, wholes, tail, |tail|);
    assert tail[..|tail|] == tail && wholes[..|wholes|] == wholes;
  }

  lemma UntouchedFrom(reqs: seq<Request>, f: nat)
    requires AllPlaced(Segs(reqs)) && Untouched(reqs) && f <= |reqs| && (f < |reqs| ==> !reqs[f].done)
    ensures var n, segs := Lens(reqs)[f], Segs(reqs);
            0 <= n <= |segs| && Rests(segs)[n..] == Wholes(segs)[n..]
  {
    hide Segs, Segment.Bytes, Segment.InPlace;
    var n, segs := Lens(reqs)[f], Segs(reqs);
    SegsSplit(reqs, f);
    RestsOfWholes(segs);
    if f == |reqs| { assert reqs[..f] == reqs; }
    forall g | n <= g < |segs| ensures Rests(segs)[g] == Wholes(segs)[g] { assert Curs(segs)[g] == 0; }
  }

  lemma {:induction false} NoSegs(reqs: seq<Request>, f: nat)
    requires f <= |reqs| && forall k :: 0 <= k < f ==> reqs[k].res == null
    ensures Lens(reqs)[f] == 0
  {
    if f > 0 {
      NoSegs(reqs, f - 1);
      assert reqs[..f][..f - 1] == reqs[..f - 1];
    } else {
      FirstLens(reqs);
    }
  }

  lemma EmptyLog(lens: seq<int>, wholes: seq<seq<byte>>, tail: seq<seq<byte>>, f: nat)
    requires Logged(lens, wholes, tail) && f <= |tail| && lens[f] == 0
    ensures forall k :: 0 <= k < f ==> tail[k] == []
  {
    forall k | 0 <= k < f ensures tail[k] == [] {
      assert LoggedAt(lens, wholes, tail[k], k) && lens[k + 1] <= lens[f];
    }
  }

  lemma UpTo(lens: seq<int>, wholes: seq<seq<byte>>, rests: seq<seq<byte>>, log: seq<seq<byte>>, p: nat,
             sent: seq<byte>, f: nat)
    requires p <= |log| && Logged(lens, wholes, log[p..]) && f <= |log| - p && |rests| == |wholes|
    requires 0 <= lens[f] <= |wholes| && rests[lens[f]..] == wholes[lens[f]..]
    requires sent + Flat(rests) == Flat(log)
    ensures sent + Flat(rests[..lens[f]]) == Flat(log[..p + f]) && sent <= Flat(log[..p + f])
    ensures lens[f] == 0 ==> sent == Flat(log[..p + f])
  {
    hide Flat, LoggedAt, LensFrom;
    var n, tail := lens[f], log[p..];
    LoggedLater(lens, wholes, tail, f);
    LogTotal(LensFrom(lens, f), wholes[n..], tail[f..]);
    assert tail[f..] == log[p + f..];
    LogSplit(log, p + f);
    LogSplit(rests, n);
    SameSuffix(sent + Flat(rests[..n]), Flat(log[..p + f]), Flat(wholes[n..]));
    if n == 0 { NothingFlat(); }
  }

  lemma SameSuffix(a: seq<byte>, b: seq<byte>, c: seq<byte>)
    requires a + c == b + c
    ensures a == b
  {
    assert |a| == |b| && a == (a + c)[..|a|] && b == (b + c)[..|b|];
  }

  lemma {:induction false} LogSplit(log: seq<seq<byte>>, p: nat)
    requires p <= |log|
    ensures Flat(log) == Flat(log[..p]) + Flat(log[p..])
  {
    assert log == log[..p] + log[p..];
    FlatAppend(log[..p], log[p..]);
  }

  /** The places behind the first p requests. */
  function LensFrom(lens: seq<int>, p: nat): (r: seq<int>)
    requires p < |lens|
  {
    seq(|lens| - p, i requires 0 <= i < |lens| - p => lens[p + i] - lens[p])
  }

  lemma {:induction false} LensLater(reqs: seq<Request>, p: nat)
    requires p <= |reqs|
    ensures Lens(reqs[p..]) == LensFrom(Lens(reqs), p) && Lens(reqs)[p] == |Segs(reqs[..p])|
  {
    hide Segs;
    forall i | 0 <= i <= |reqs| - p ensures |Segs(reqs[p..][..i])| == |Segs(reqs[..p + i])| - |Segs(reqs[..p])| {
      SegsSplit(reqs[..p + i], p);
      assert reqs[..p + i][..p] == reqs[..p] && reqs[..p + i][p..] == reqs[p..][..i];
    }
  }

  lemma {:induction false} LoggedLater(lens: seq<int>, wholes: seq<seq<byte>>, tail: seq<seq<byte>>, p: nat)
    requires Logged(lens, wholes, tail) && p <= |tail|
    ensures 0 <= lens[p] <= |wholes| && Logged(LensFrom(lens, p), wholes[lens[p]..], tail[p..])
  {
    hide Flat;
    var l := LensFrom(lens, p);
    forall i | 0 <= i < |tail[p..]| ensures LoggedAt(l, wholes[lens[p]..], tail[p..][i], i) {
      assert LoggedAt(lens, wholes, tail[p + i], p + i);
      assert wholes[lens[p]..][l[i]..l[i + 1]] == wholes[lens[p + i]..lens[p + i + 1]];
    }
  }

  lemma {:induction false} LoggedPush(reqs: seq<Request>, req: Request, tail: seq<seq<byte>>)
    requires AllPlaced(Segs(reqs)) && Logged(Lens(reqs), Wholes(Segs(reqs)), tail) && !req.done
    requires Segs(reqs + [req]) == Segs(reqs)
    ensures Logged(Lens(reqs + [req]), Wholes(Segs(reqs)), tail + [[]])
  {
    hide Flat, Segs, Wholes;
    var all := reqs + [req];
    forall i | 0 <= i <= |reqs| ensures all[..i] == reqs[..i] { }
    assert all[..|reqs| + 1] == all && reqs[..|reqs|] == reqs;
    var wholes, lens := Wholes(Segs(reqs)), Lens(all);
    assert lens == Lens(reqs) + [|wholes|];
    forall i | 0 <= i < |tail + [[]]| ensures LoggedAt(lens, wholes, (tail + [[]])[i], i) {
      if i < |tail| {
        assert LoggedAt(Lens(reqs), wholes, tail[i], i);
      } else {
        assert wholes[|wholes|..|wholes|] == [];
        NothingFlat();
      }
    }
  }

  lemma NothingFlat()
    ensures Flat([]) == []
  {
  }

  /** Places before a request, of which the reply has w segments, and behind it. */
  function LensJoin(a: seq<int>, w: nat, b: seq<int>): (r: seq<int>)
    requires a != []
  {
    a + seq(|b|, i requires 0 <= i < |b| => a[|a| - 1] + w + b[i])
  }

  lemma FirstLens(reqs: seq<Request>)
    ensures Lens(reqs)[0] == 0
  {
    assert reqs[..0] == [];
  }

  lemma {:induction false} LensAround(reqs: seq<Request>, k: nat)
    requires k < |reqs|
    ensures Lens(reqs) == LensJoin(Lens(reqs[..k]), |SegsOf(reqs[k])|, Lens(reqs[k + 1..]))
    ensures Lens(reqs[..k])[k] == |Segs(reqs[..k])|
  {
    hide Segs, SegsOf;
    assert reqs[..k][..k] == reqs[..k];
    forall i | 0 <= i <= |reqs|
      ensures |Segs(reqs[..i])| == if i <= k then |Segs(reqs[..k][..i])|
              else |Segs(reqs[..k])| + |SegsOf(reqs[k])| + |Segs(reqs[k + 1..][..i - k - 1])|
    {
      if i <= k {
        assert reqs[..k][..i] == reqs[..i];
      } else {
        SegsAround(reqs[..i], k);
        assert reqs[..i][..k] == reqs[..k] && reqs[..i][k + 1..] == reqs[k + 1..][..i - k - 1];
      }
    }
  }

  lemma JoinAt(a: seq<int>, w: nat, b: seq<int>, i: nat)
    requires a != [] && i < |LensJoin(a, w, b)|
    ensures |LensJoin(a, w, b)| == |a| + |b|
    ensures LensJoin(a, w, b)[i] == if i < |a| then a[i] else a[|a| - 1] + w + b[i - |a|]
  {
  }

  /** A reply of segments m joins those that are there. */
  lemma {:induction false} LoggedWith(a: seq<int>, b: seq<int>, wholes: seq<seq<byte>>, tail: seq<seq<byte>>,
                                      m: seq<seq<byte>>)
    requires a != [] && Logged(LensJoin(a, 0, b), wholes, tail) && b != [] && b[0] == 0
    ensures 0 <= a[|a| - 1] <= |wholes| && |a| - 1 < |tail|
    ensures var n := a[|a| - 1];
            Logged(LensJoin(a, |m|, b), Spliced(wholes, n, m), tail[|a| - 1 := Flat(m)])
  {
    hide Flat, LoggedAt, LensJoin, Spliced;
    var k, n := |a| - 1, a[|a| - 1];
    var lens, lens' := LensJoin(a, 0, b), LensJoin(a, |m|, b);
    JoinAt(a, 0, b, 0);
    JoinAt(a, 0, b, k);
    JoinAt(a, 0, b, k + 1);
    LensShift(a, b, |m|, 0);
    LensShift(a, b, |m|, |tail|);
    var all, tail' := Spliced(wholes, n, m), tail[k := Flat(m)];
    forall i | 0 <= i < |tail| ensures LoggedAt(lens', all, tail'[i], i) {
      LensShift(a, b, |m|, i);
      LensShift(a, b, |m|, i + 1);
      assert (i < k ==> lens[i + 1] <= lens[k]) && (i > k ==> lens[i] >= lens[k + 1]);
      WithAt(lens, lens', wholes, all, tail[i], m, n, k, i);
    }
    LensRise(a, b, |m|);
  }

  lemma LensRise(a: seq<int>, b: seq<int>, w: nat)
    requires a != []
    requires forall i, j :: 0 <= i <= j < |LensJoin(a, 0, b)| ==> LensJoin(a, 0, b)[i] <= LensJoin(a, 0, b)[j]
    ensures var l := LensJoin(a, w, b); forall i, j :: 0 <= i <= j < |l| ==> l[i] <= l[j]
  {
    hide LensJoin;
    LensShift(a, b, w, 0);
    var l, l0 := LensJoin(a, w, b), LensJoin(a, 0, b);
    forall i, j | 0 <= i <= j < |l| ensures l[i] <= l[j] {
      LensShift(a, b, w, i);
      LensShift(a, b, w, j);
      assert l0[i] <= l0[j];
    }
  }

  lemma LensShift(a: seq<int>, b: seq<int>, w: nat, i: nat)
    requires a != [] && i < |a| + |b|
    ensures |LensJoin(a, 0, b)| == |LensJoin(a, w, b)| == |a| + |b|
    ensures LensJoin(a, w, b)[i] == if i < |a| then LensJoin(a, 0, b)[i] else LensJoin(a, 0, b)[i] + w
  {
  }

  lemma {:induction false} WithAt(lens: seq<int>, lens': seq<int>, wholes: seq<seq<byte>>, all: seq<seq<byte>>,
                                  reply: seq<byte>, m: seq<seq<byte>>, n: nat, k: nat, i: nat)
    requires i + 1 < |lens| == |lens'| && k + 1 < |lens| && LoggedAt(lens, wholes, reply, i) && n <= |wholes|
    requires lens[k] == lens[k + 1] == n && (i < k ==> lens[i + 1] <= n) && (i > k ==> lens[i] >= n)
    requires lens'[i] == if i <= k then lens[i] else lens[i] + |m|
    requires lens'[i + 1] == if i + 1 <= k then lens[i + 1] else lens[i + 1] + |m|
    requires all == Spliced(wholes, n, m)
    ensures i != k ==> LoggedAt(lens', all, reply, i)
    ensures i == k ==> LoggedAt(lens', all, Flat(m), i)
  {
    hide Flat, Spliced;
    if i < k {
      BeforeInsert(wholes, n, m, lens[i], lens[i + 1]);
    } else if i == k {
      TheInsert(wholes, n, m);
    } else {
      BehindInsert(wholes, n, m, lens[i], lens[i + 1]);
    }
  }

  function Spliced(s: seq<seq<byte>>, n: nat, m: seq<seq<byte>>): (r: seq<seq<byte>>)
    requires n <= |s|
    ensures |r| == |s| + |m|
  {
    s[..n] + m + s[n..]
  }

  lemma SplicedIs(s: seq<seq<byte>>, n: nat, m: seq<seq<byte>>)
    requires n <= |s|
    ensures Spliced(s, n, m) == s[..n] + m + s[n..]
  {
  }

  lemma BeforeInsert(s: seq<seq<byte>>, n: nat, m: seq<seq<byte>>, i: nat, j: nat)
    requires i <= j <= n <= |s|
    ensures Spliced(s, n, m)[i..j] == s[i..j]
  {
  }

  lemma TheInsert(s: seq<seq<byte>>, n: nat, m: seq<seq<byte>>)
    requires n <= |s|
    ensures Spliced(s, n, m)[n..n + |m|] == m
  {
  }

  lemma BehindInsert(s: seq<seq<byte>>, n: nat, m: seq<seq<byte>>, i: nat, j: nat)
    requires n <= i <= j <= |s|
    ensures Spliced(s, n, m)[i + |m|..j + |m|] == s[i..j]
  {
    BehindPrefix(s[..n] + m, s[n..], i - n, j - n);
    assert s[n..][i - n..j - n] == s[i..j];
  }

  lemma BehindPrefix(a: seq<seq<byte>>, b: seq<seq<byte>>, i: nat, j: nat)
    requires i <= j <= |b|
    ensures (a + b)[|a| + i..|a| + j] == b[i..j]
  {
  }

  /** The log when the reply of segments m to the request behind those of `la` is there. */
  lemma {:induction false} AnswerLog(log: seq<seq<byte>>, p: nat, la: seq<int>, lb: seq<int>, wholes: seq<seq<byte>>,
                                     m: seq<seq<byte>>)
    requires p <= |log| && la != [] && lb != [] && lb[0] == 0 && Logged(LensJoin(la, 0, lb), wholes, log[p..])
    ensures |la| - 1 < |log| - p && 0 <= la[|la| - 1] <= |wholes|
    ensures Flat(log) == Flat(log[..p]) + Flat(wholes)
    ensures var k, n := |la| - 1, la[|la| - 1];
            var all, log' := Spliced(wholes, n, m), log[p + k := Flat(m)];
            Logged(LensJoin(la, |m|, lb), all, log'[p..]) && Flat(log') == Flat(log[..p]) + Flat(all)
  {
    hide Flat, Logged, Spliced, LensJoin;
    LogSplit(log, p);
    LogTotal(LensJoin(la, 0, lb), wholes, log[p..]);
    LoggedWith(la, lb, wholes, log[p..], m);
    var k, n := |la| - 1, la[|la| - 1];
    var all, log' := Spliced(wholes, n, m), log[p + k := Flat(m)];
    assert log'[p..] == log[p..][k := Flat(m)] && log'[..p] == log[..p];
    LogSplit(log', p);
    LogTotal(LensJoin(la, |m|, lb), all, log'[p..]);
  }

  lemma NotAround(reqs: seq<Request>, k: nat)
    requires DistinctReqs(reqs) && k < |reqs|
    ensures reqs[k] !in reqs[..k] && reqs[k] !in reqs[k + 1..]
  {
  }

  /** What a reply of the segments `segs` to request k makes of the values. */
  lemma BeforeAnswer(reqs: seq<Request>, k: nat, segs: seq<Segment>, all: seq<Segment>, log: seq<seq<byte>>, p: nat,
                     sent: seq<byte>)
    requires Ready(reqs) && Untouched(reqs) && k < |reqs| && !reqs[k].done
    requires all == Segs(reqs[..k]) + segs + Segs(reqs[k + 1..])
    requires p + |reqs| == |log| && Logged(Lens(reqs), Wholes(Segs(reqs)), log[p..])
    requires sent + Flat(Rests(Segs(reqs))) == Flat(log)
    requires DistinctSegs(Segs(reqs) + segs) && Sound(segs) && AllPlaced(segs) && |segs| % 2 == 0
    requires ZeroFrom(Curs(segs), 0) && BodiesLeft(Rests(segs))
    ensures DistinctReqs(reqs) && AllPlaced(all) && Sound(all) && DistinctSegs(all) && BodiesLeft(Rests(all))
    ensures var curs, n := Curs(Segs(reqs)), |Segs(reqs[..k])|;
            && n <= |curs| && Curs(all) == curs[..n] + Curs(segs) + curs[n..] && UntouchedBy(reqs[..k], curs)
            && ZeroFrom(curs, n)
    ensures var log' := log[p + k := Flat(Wholes(segs))];
            && sent + Flat(Rests(all)) == Flat(log')
            && Logged(LensJoin(Lens(reqs[..k]), |segs|, Lens(reqs[k + 1..])), Wholes(all), log'[p..])
  {
    hide *;
    ReadyParts(reqs);
    var a, b := Segs(reqs[..k]), Segs(reqs[k + 1..]);
    var la, lb := Lens(reqs[..k]), Lens(reqs[k + 1..]);
    Unanswered(reqs, k);
    AnswerLog(log, p, la, lb, Wholes(a + b), Wholes(segs));
    UntouchedBefore(reqs, k, Curs(a + b));
    SplicedIs(Wholes(a + b), |a|, Wholes(segs));
    Insert(a, segs, b, sent, Flat(log[..p]));
  }

  /** The queue is in order again. */
  lemma AfterAnswer(reqs: seq<Request>, k: nat, a: seq<Segment>, segs: seq<Segment>, b: seq<Segment>, curs: seq<nat>)
    requires k < |reqs| && reqs[k].done
    requires segs == if reqs[k].res == null then [] else [reqs[k].res.head, reqs[k].res.body]
    requires a == Segs(reqs[..k]) && b == Segs(reqs[k + 1..]) && |curs| == |a| + |b|
    requires DistinctReqs(reqs) && AllPlaced(a + segs + b) && Sound(a + segs + b) && DistinctSegs(a + segs + b)
    requires BodiesLeft(Rests(a + segs + b))
    requires AllPlaced(segs) && ZeroFrom(Curs(segs), 0) && Curs(a + segs + b) == curs[..|a|] + Curs(segs) + curs[|a|..]
    requires UntouchedBy(reqs[..k], curs) && ZeroFrom(curs, |a|)
    ensures Segs(reqs) == a + segs + b && Lens(reqs) == LensJoin(Lens(reqs[..k]), |segs|, Lens(reqs[k + 1..]))
    ensures Ready(reqs) && Untouched(reqs)
  {
    hide *;
    Answered(reqs, k);
    UntouchedWith(reqs, k, a, segs, b, curs);
    ReadyFrom(reqs);
  }

  /** The queue around a request that has no reply. */
  lemma Unanswered(reqs: seq<Request>, k: nat)
    requires k < |reqs| && !reqs[k].done
    ensures Segs(reqs) == Segs(reqs[..k]) + Segs(reqs[k + 1..])
    ensures Lens(reqs) == LensJoin(Lens(reqs[..k]), 0, Lens(reqs[k + 1..]))
    ensures Lens(reqs[..k])[k] == |Segs(reqs[..k])| && Lens(reqs[k + 1..])[0] == 0
  {
    hide Segs, Lens;
    SegsAround(reqs, k);
    LensAround(reqs, k);
    FirstLens(reqs[k + 1..]);
  }

  /** The queue around a request that is done. */
  lemma Answered(reqs: seq<Request>, k: nat)
    requires k < |reqs| && reqs[k].done
    ensures var m := if reqs[k].res == null then [] else [reqs[k].res.head, reqs[k].res.body];
            && Segs(reqs) == Segs(reqs[..k]) + m + Segs(reqs[k + 1..])
            && Lens(reqs) == LensJoin(Lens(reqs[..k]), |m|, Lens(reqs[k + 1..]))
  {
    hide Segs, Lens;
    SegsAround(reqs, k);
    LensAround(reqs, k);
  }

  lemma PushKeeps(reqs: seq<Request>, req: Request)
    requires Ready(reqs) && Untouched(reqs) && req !in reqs && !req.done
    ensures Segs(reqs + [req]) == Segs(reqs) && Ready(reqs + [req]) && Untouched(reqs + [req])
  {
    hide Base, Flat, AllPlaced, Sound, Rests, Curs, DistinctSegs, BodiesLeft, Segs;
    SegsAppend(reqs, [req]);
    OneRequest(req);
    assert Segs(reqs + [req]) == Segs(reqs);
    var all := reqs + [req];
    forall k | 0 <= k < |all| && !all[k].done ensures ZeroFrom(Curs(Segs(all)), |Segs(all[..k])|) {
      if k < |reqs| {
        assert all[k] == reqs[k] && all[..k] == reqs[..k];
      } else {
        assert all[..k] == reqs;
      }
    }
  }

  lemma OneRequest(req: Request)
    ensures Segs([]) == [] && Segs([req]) == SegsOf(req)
  {
    assert [req][..0] == [];
  }

  lemma SegsAssoc(a: seq<Segment>, b: seq<Segment>, c: seq<Segment>)
    ensures a + (b + c) == a + b + c
  {
  }

  lemma {:induction false} SegsAround(reqs: seq<Request>, k: nat)
    requires k < |reqs|
    ensures Segs(reqs) == Segs(reqs[..k]) + SegsOf(reqs[k]) + Segs(reqs[k + 1..])
  {
    hide Segs, SegsOf;
    SegsSplit(reqs, k);
    assert reqs[k..] == [reqs[k]] + reqs[k + 1..];
    SegsAppend([reqs[k]], reqs[k + 1..]);
    OneRequest(reqs[k]);
    SegsAssoc(Segs(reqs[..k]), SegsOf(reqs[k]), Segs(reqs[k + 1..]));
  }

  /** The cursors, as far as the requests before an unanswered one restrict them. */
  ghost predicate UntouchedBy(reqs: seq<Request>, curs: seq<nat>)
    reads reqs
  {
    forall i :: 0 <= i < |reqs| && !reqs[i].done ==> ZeroFrom(curs, |Segs(reqs[..i])|)
  }

  lemma UntouchedBefore(reqs: seq<Request>, k: nat, curs: seq<nat>)
    requires AllPlaced(Segs(reqs)) && Untouched(reqs) && curs == Curs(Segs(reqs)) && k < |reqs| && !reqs[k].done
    ensures UntouchedBy(reqs[..k], curs) && ZeroFrom(curs, |Segs(reqs[..k])|)
  {
    hide Segs, AllPlaced, Curs, ZeroFrom;
    forall i | 0 <= i < k && !reqs[..k][i].done ensures ZeroFrom(curs, |Segs(reqs[..k][..i])|) {
      assert reqs[..k][..i] == reqs[..i] && !reqs[i].done;
    }
  }

  lemma {:induction false} UntouchedWith(reqs: seq<Request>, k: nat, a: seq<Segment>, m: seq<Segment>, b: seq<Segment>,
                                         curs: seq<nat>)
    requires k < |reqs| && reqs[k].done && a == Segs(reqs[..k]) && Segs(reqs) == a + m + b && |curs| == |a| + |b|
    requires AllPlaced(a + m + b) && AllPlaced(m) && AllPlaced(Segs(reqs)) && ZeroFrom(Curs(m), 0)
    requires Curs(a + m + b) == curs[..|a|] + Curs(m) + curs[|a|..]
    requires UntouchedBy(reqs[..k], curs) && ZeroFrom(curs, |a|)
    ensures Untouched(reqs)
  {
    hide Segs, AllPlaced, Curs;
    forall i | 0 <= i < |reqs| && !reqs[i].done ensures ZeroFrom(Curs(Segs(reqs)), |Segs(reqs[..i])|) {
      if i < k {
        assert reqs[..k][i] == reqs[i] && reqs[..k][..i] == reqs[..i];
        SegsMonotone(reqs[..k], i, k);
        assert reqs[..k][..k] == reqs[..k];
      } else {
        SegsMonotone(reqs, k, i);
      }
      ZeroInsert(curs, |a|, Curs(m), |Segs(reqs[..i])|);
    }
  }

  lemma ZeroInsert(curs: seq<nat>, n: nat, m: seq<nat>, g: nat)
    requires n <= |curs| && ZeroFrom(curs, n) && ZeroFrom(m, 0) && (g < n ==> ZeroFrom(curs, g))
    ensures ZeroFrom(curs[..n] + m + curs[n..], g)
  {
  }

  lemma Insert(a: seq<Segment>, m: seq<Segment>, b: seq<Segment>, sent: seq<byte>, gone: seq<byte>)
    requires Sound(a + b) && AllPlaced(a + b) && Sound(m) && AllPlaced(m) && DistinctSegs(a + b + m)
    requires |a| % 2 == |m| % 2 == 0
    requires BodiesLeft(Rests(a + b)) && BodiesLeft(Rests(m)) && ZeroFrom(Curs(m), 0) && ZeroFrom(Curs(a + b), |a|)
    requires sent + Flat(Rests(a + b)) == gone + Flat(Wholes(a + b))
    ensures Sound(a + m + b) && AllPlaced(a + m + b) && DistinctSegs(a + m + b)
    ensures BodiesLeft(Rests(a + m + b)) && Curs(a + m + b) == Curs(a + b)[..|a|] + Curs(m) + Curs(a + b)[|a|..]
    ensures Wholes(a + m + b) == Wholes(a + b)[..|a|] + Wholes(m) + Wholes(a + b)[|a|..]
    ensures sent + Flat(Rests(a + m + b)) == gone + Flat(Wholes(a + m + b))
  {
    hide Flat, Sound, AllPlaced, DistinctSegs, Rests, Curs, Wholes, BodiesLeft;
    InsertSound(a, m, b);
    InsertLists(a, m, b);
    AllLeft(m, 0);
    assert Rests(m)[0..] == Rests(m) && Wholes(m)[0..] == Wholes(m);
    AllLeft(a + b, |a|);
    InsertFlat(sent, gone, Rests(a + b), Wholes(a + b), |a|, Rests(m));
    InsertBodies(Rests(a + b), |a|, Rests(m));
  }

  lemma InsertFlat(sent: seq<byte>, gone: seq<byte>, rests: seq<seq<byte>>, wholes: seq<seq<byte>>, n: nat,
                   m: seq<seq<byte>>)
    requires |rests| == |wholes| && n <= |rests| && rests[n..] == wholes[n..]
    requires sent + Flat(rests) == gone + Flat(wholes)
    ensures sent + Flat(rests[..n] + m + rests[n..]) == gone + Flat(wholes[..n] + m + wholes[n..])
  {
    hide Flat;
    var ra, wa, t := rests[..n], wholes[..n], rests[n..];
    assert rests == ra + t && wholes == wa + t;
    FlatAppend(ra, t);
    FlatAppend(wa, t);
    FlatAppend(ra + m, t);
    FlatAppend(wa + m, t);
    FlatAppend(ra, m);
    FlatAppend(wa, m);
    InsertBytes(sent, gone, Flat(ra), Flat(wa), Flat(m), Flat(t));
  }

  lemma InsertBytes(sent: seq<byte>, gone: seq<byte>, ra: seq<byte>, wa: seq<byte>, m: seq<byte>, t: seq<byte>)
    requires sent + (ra + t) == gone + (wa + t)
    ensures sent + (ra + m + t) == gone + (wa + m + t)
  {
    var x, y := sent + ra, gone + wa;
    assert x + t == y + t by { assert sent + (ra + t) == x + t && gone + (wa + t) == y + t; }
    assert |x| == |y| && x == (x + t)[..|x|] && y == (y + t)[..|y|];
    assert sent + (ra + m + t) == x + (m + t) && gone + (wa + m + t) == y + (m + t);
  }

  lemma InsertBodies(rests: seq<seq<byte>>, n: nat, m: seq<seq<byte>>)
    requires n <= |rests| && n % 2 == |m| % 2 == 0 && BodiesLeft(rests) && BodiesLeft(m)
    ensures BodiesLeft(rests[..n] + m + rests[n..])
  {
    hide BodiesLeft;
    BodiesSplit(rests, n);
    BodiesJoin(rests[..n], m);
    BodiesJoin(rests[..n] + m, rests[n..]);
  }

  lemma BodiesSplit(rests: seq<seq<byte>>, n: nat)
    requires n <= |rests| && n % 2 == 0 && BodiesLeft(rests)
    ensures BodiesLeft(rests[..n]) && BodiesLeft(rests[n..])
  {
    forall g | 0 <= g < |rests[n..]| && g % 2 == 1 ensures rests[n..][g] != [] {
      assert rests[n..][g] == rests[n + g];
    }
  }

  lemma BodiesJoin(a: seq<seq<byte>>, b: seq<seq<byte>>)
    requires |a| % 2 == 0 && BodiesLeft(a) && BodiesLeft(b)
    ensures BodiesLeft(a + b)
  {
    forall g | 0 <= g < |a + b| && g % 2 == 1 ensures (a + b)[g] != [] {
      if g >= |a| { assert (a + b)[g] == b[g - |a|]; }
    }
  }

  /** Segments whose cursors are at the start have all their bytes left. */
  lemma AllLeft(segs: seq<Segment>, g: nat)
    requires AllPlaced(segs) && g <= |segs| && ZeroFrom(Curs(segs), g)
    ensures Rests(segs)[g..] == Wholes(segs)[g..]
  {
    hide Segment.InPlace, Segment.Bytes, AllPlaced;
    RestsOfWholes(segs);
    forall h | g <= h < |segs| ensures Rests(segs)[h] == Wholes(segs)[h] {
      assert Curs(segs)[h] == 0;
    }
  }

  lemma InsertSound(a: seq<Segment>, m: seq<Segment>, b: seq<Segment>)
    requires Sound(a + b) && AllPlaced(a + b) && Sound(m) && AllPlaced(m) && DistinctSegs(a + b + m)
    ensures Sound(a + m + b) && AllPlaced(a + m + b) && DistinctSegs(a + m + b)
  {
    hide Segment.InPlace, Segment.Valid;
    var all, was := a + m + b, a + b;
    forall g | 0 <= g < |all| ensures all[g].InPlace() && all[g].Valid() {
      if g < |a| {
        assert all[g] == was[g];
      } else if g < |a| + |m| {
        assert all[g] == m[g - |a|];
      } else {
        assert all[g] == was[g - |m|];
      }
    }
    InsertDistinct(a, m, b);
  }

  lemma InsertDistinct(a: seq<Segment>, m: seq<Segment>, b: seq<Segment>)
    requires DistinctSegs(a + b + m)
    ensures DistinctSegs(a + m + b)
  {
    var all, was := a + m + b, a + b + m;
    forall g, h | 0 <= g < h < |all| ensures all[g] != all[h] {
      assert was[Slot(g, |a|, |m|, |b|)] == all[g] && was[Slot(h, |a|, |m|, |b|)] == all[h];
    }
  }

  function Slot(g: nat, a: nat, m: nat, b: nat): nat
  {
    if g < a then g else if g < a + m then g + b else g - m
  }

  lemma InsertLists(a: seq<Segment>, m: seq<Segment>, b: seq<Segment>)
    requires AllPlaced(a + b) && AllPlaced(m) && AllPlaced(a + m + b)
    ensures Rests(a + m + b) == Rests(a + b)[..|a|] + Rests(m) + Rests(a + b)[|a|..]
    ensures Wholes(a + m + b) == Wholes(a + b)[..|a|] + Wholes(m) + Wholes(a + b)[|a|..]
    ensures Curs(a + m + b) == Curs(a + b)[..|a|] + Curs(m) + Curs(a + b)[|a|..]
  {
    hide Segment.InPlace, Segment.Bytes, AllPlaced, Rests, Wholes, Curs;
    var all, was := a + m + b, a + b;
    forall g | 0 <= g < |all|
      ensures all[g] == if g < |a| then was[g] else if g < |a| + |m| then m[g - |a|] else was[g - |m|]
    {
    }
  }

  lemma {:induction false} Regroup(sent: seq<byte>, rests: seq<seq<byte>>, vecs: seq<IOVec>, answer: int,
                                   all: seq<byte>)
    requires VData(vecs) <= Flat(rests) && sent + Flat(rests) == all
    ensures Taken(vecs, answer) <= |Flat(rests)|
    ensures sent + VData(vecs)[..Taken(vecs, answer)] + Flat(rests)[Taken(vecs, answer)..] == all
  {
    hide Flat, VData;
    var n := Taken(vecs, answer);
    assert VData(vecs)[..n] == Flat(rests)[..n];
    Concat(sent, Flat(rests)[..n], Flat(rests)[n..], Flat(rests));
  }

  /** If two splits of the same bytes end in parts of which one is no longer than the other. */
  lemma PrefixOfSum(a: seq<byte>, b: seq<byte>, c: seq<byte>, d: seq<byte>)
    requires a + b == c + d && |b| <= |d|
    ensures c <= a <= c + d && b == (c + d)[|a|..]
  {
    assert (a + b)[..|a|] == a && (a + b)[|a|..] == b && (c + d)[..|c|] == c;
    assert a[..|c|] == (a + b)[..|c|];
  }

  lemma {:induction false} ShorterRests(rests: seq<seq<byte>>, wholes: seq<seq<byte>>)
    requires |rests| == |wholes| && forall g :: 0 <= g < |rests| ==> |rests[g]| <= |wholes[g]|
    ensures |Flat(rests)| <= |Flat(wholes)|
  {
    if rests != [] { ShorterRests(rests[1..], wholes[1..]); }
  }

  /** What writev took in all turns. */
  function AllTaken(turns: seq<seq<IOVec>>, answers: nat -> int): seq<byte>
  {
    if turns == [] then [] else
    var last := |turns| - 1;
    AllTaken(turns[..last], answers) + VData(turns[last])[..Taken(turns[last], answers(last))]
  }

  lemma NoTurns(answers: nat -> int)
    ensures AllTaken([], answers) == []
  {
  }

  lemma {:induction false} TurnsAdd(before: seq<byte>, pending: seq<byte>, n: nat, all: seq<Request>, p: nat, q: nat,
                                    turns: seq<seq<IOVec>>, vecs: seq<IOVec>, answers: nat -> int)
    requires n <= |pending| && p + q <= |all| && VData(vecs) <= pending[n..]
    ensures var m := Taken(vecs, answers(|turns|));
            && n + m <= |pending| && pending[n..][m..] == pending[n + m..] && (InFull(vecs, answers(|turns|)) ==> m > 0)
            && before + AllTaken(turns, answers) + VData(vecs)[..m] == before + AllTaken(turns + [vecs], answers)
    ensures all[p..][q..] == all[p + q..]
  {
    hide VData, VTotal;
    LastCounts(vecs);
    OneMoreTurn(before, turns, vecs, answers);
    DropMore(pending, n, Taken(vecs, answers(|turns|)));
  }

  lemma {:induction false} OneMoreTurn(before: seq<byte>, turns: seq<seq<IOVec>>, vecs: seq<IOVec>, answers: nat -> int)
    ensures before + AllTaken(turns, answers) + VData(vecs)[..Taken(vecs, answers(|turns|))]
            == before + AllTaken(turns + [vecs], answers)
  {
    hide VData, VTotal;
    assert (turns + [vecs])[..|turns|] == turns;
    Concat(before, AllTaken(turns, answers), VData(vecs)[..Taken(vecs, answers(|turns|))],
           AllTaken(turns + [vecs], answers));
  }

  lemma DropMore(s: seq<byte>, n: nat, m: nat)
    requires n + m <= |s|
    ensures s[n..][m..] == s[n + m..]
  {
  }

  lemma Concat(a: seq<byte>, b: seq<byte>, c: seq<byte>, bc: seq<byte>)
    requires bc == b + c
    ensures a + b + c == a + bc
  {
  }

  lemma PoppedDone(all: seq<Request>, p0: nat, p1: nat)
    requires p0 + p1 <= |all| && (forall k :: 0 <= k < p0 ==> all[k].done)
    requires forall k :: 0 <= k < p1 ==> all[p0..][k].done
    ensures forall k :: 0 <= k < p0 + p1 ==> all[k].done
  {
    forall k | p0 <= k < p0 + p1 ensures all[k].done {
      assert all[p0..][k - p0].done;
    }
  }

  /** Every reply before the first unanswered request is sent. */
  ghost predicate AllOut(reqs: seq<Request>)
    reads reqs
  {
    forall k :: 0 <= k < |reqs| && (forall i :: 0 <= i <= k ==> reqs[i].done) ==> reqs[k].res == null
  }

  function Sent(num: int): (n: nat)
    ensures (num <= 0 ==> n == 0) && (num >= 0 ==> n == num)
  {
    if num < 0 then 0 else num
  }

  lemma TakenIs(vecs: seq<IOVec>, answer: int, num: int)
    requires num == if answer <= VTotal(vecs) then answer else VTotal(vecs)
    ensures Taken(vecs, answer) == Sent(num)
    ensures InFull(vecs, answer) <==> vecs != [] && num == VTotal(vecs) && vecs[|vecs| - 1].piece.dat != []
    ensures vecs == [] || InFull(vecs, answer) ==> Taken(vecs, answer) == VTotal(vecs)
    ensures vecs == [] ==> VTotal(vecs) == 0
  {
  }

  lemma VectorIsPending(reqs: seq<Request>, segs: seq<Segment>, curs: seq<nat>, rests: seq<seq<byte>>, vecs: seq<IOVec>,
                        f: Filled)
    requires AllPlaced(segs) && curs == Curs(segs) && rests == Rests(segs) && FilledOk(reqs, segs, curs, rests, vecs, f)
    ensures VData(vecs) <= Flat(rests)
  {
    hide Flat, Base, VData, VTotal, InStream, AllSpots, Owned, EndsOf, AllPlaced;
    DataIsPending(segs, curs, rests, vecs, f.spots, |vecs|);
    assert vecs[..|vecs|] == vecs;
  }

  lemma FillNothing(reqs: seq<Request>, segs: seq<Segment>, curs: seq<nat>, rests: seq<seq<byte>>)
    requires AllPlaced(segs) && |curs| == |rests|
    ensures FilledOk(reqs, segs, curs, rests, [], Filled([], [], [0])) && VTotal([]) == 0
  {
    assert reqs[..0] == [] && Base(rests, 0) == |Flat([])|;
  }

  lemma FirstEmpty(reqs: seq<Request>)
    requires reqs != [] && reqs[0].res == null
    ensures Segs(reqs[1..]) == Segs(reqs)
  {
    SegsSplit(reqs, 1);
    assert reqs[..1][..0] == [];
  }

  lemma NextReply(reqs: seq<Request>, segs: seq<Segment>, curs: seq<nat>, rests: seq<seq<byte>>, vecs: seq<IOVec>,
                  f: Filled)
    returns (g: nat)
    requires segs == Segs(reqs) && AllPlaced(segs) && |curs| == |rests| == |segs| && BodiesLeft(rests)
    requires FilledOk(reqs, segs, curs, rests, vecs, f) && |f.ends| <= |reqs|
    requires reqs[|f.ends| - 1].done && reqs[|f.ends| - 1].res != null
    ensures g + 1 < |segs| && segs[g] == reqs[|f.ends| - 1].res.head && segs[g + 1] == reqs[|f.ends| - 1].res.body
    ensures rests[g + 1] != []
    ensures f.ends[|f.ends| - 1] == Base(rests, g)
    ensures EndsOf(reqs, rests, f.ends + [f.ends[|f.ends| - 1] + |rests[g]| + |rests[g + 1]|])
  {
    hide Base, Flat, VTotal, InStream, AllSpots, AllPlaced, Owned, EndsOf, Segs;
    g := |Segs(reqs[..|f.ends| - 1])|;
    ReplyAt(reqs, |f.ends| - 1, rests, f.ends);
  }

  /** A done request without a reply, not at the front. */
  lemma SkipDone(reqs: seq<Request>, segs: seq<Segment>, curs: seq<nat>, rests: seq<seq<byte>>, vecs: seq<IOVec>,
                 f: Filled)
    returns (f': Filled)
    requires AllPlaced(segs) && |curs| == |rests| == |Segs(reqs)| && FilledOk(reqs, segs, curs, rests, vecs, f)
    requires |f.ends| <= |reqs|
    requires reqs[|f.ends| - 1].done && reqs[|f.ends| - 1].res == null
    ensures f' == f.(ends := f.ends + [f.ends[|f.ends| - 1]]) && FilledOk(reqs, segs, curs, rests, vecs, f')
  {
    hide Base, Flat, VTotal, InStream, AllSpots, AllPlaced, Owned, EndsOf, Segs;
    f' := f.(ends := f.ends + [f.ends[|f.ends| - 1]]);
    NoReplyAt(reqs, |f.ends| - 1, rests, f.ends);
    OwnedLonger(reqs, vecs, f.owner, f.ends, f.ends[|f.ends| - 1]);
  }

  /** The entries of the next reply, at segment g. */
  lemma FillMore(reqs: seq<Request>, segs: seq<Segment>, curs: seq<nat>, rests: seq<seq<byte>>, vecs: seq<IOVec>,
                 f: Filled, more: seq<IOVec>, spots: seq<Spot>, g: nat)
    returns (f': Filled)
    requires AllPlaced(segs) && |curs| == |rests| && FilledOk(reqs, segs, curs, rests, vecs, f) && g + 1 < |rests|
    requires |f.ends| <= |reqs| && reqs[|f.ends| - 1].done && VTotal(vecs) == f.ends[|f.ends| - 1] == Base(rests, g)
    requires AllSpots(segs, more, spots) && InStream(curs, rests, more, spots, Base(rests, g))
    requires Marked(more, |rests[g]| + |rests[g + 1]|, reqs[|f.ends| - 1])
    requires VTotal(more) <= |rests[g]| + |rests[g + 1]|
    requires EndsOf(reqs, rests, f.ends + [f.ends[|f.ends| - 1] + |rests[g]| + |rests[g + 1]|])
    ensures f'.ends == f.ends + [f.ends[|f.ends| - 1] + |rests[g]| + |rests[g + 1]|]
    ensures FilledOk(reqs, segs, curs, rests, vecs + more, f') && VTotal(vecs + more) == VTotal(vecs) + VTotal(more)
  {
    hide Base, Flat, VTotal, InStream, AllSpots, Marked, Owned, EndsOf, AllPlaced;
    var total := |rests[g]| + |rests[g + 1]|;
    f' := Filled(f.spots + spots, f.owner + seq(|more|, _ => |f.ends| - 1), f.ends + [f.ends[|f.ends| - 1] + total]);
    VTotalAppend(vecs, more);
    SpotsAppend(segs, vecs, f.spots, more, spots);
    InStreamAppend(curs, rests, vecs, f.spots, more, spots, 0);
    OwnedAppend(reqs, vecs, f.owner, f.ends, more, total);
  }

  /** What FilledOk says about the values alone. */
  ghost predicate Traced(reqs: seq<Request>, curs: seq<nat>, rests: seq<seq<byte>>, wholes: seq<seq<byte>>,
                         vecs: seq<IOVec>, f: Filled)
    requires |curs| == |rests| == |wholes|
  {
    && InStream(curs, rests, vecs, f.spots, 0) && Owned(reqs, vecs, f.owner, f.ends) && Ascending(f.ends)
    && forall g :: 0 <= g < |curs| ==> curs[g] + |rests[g]| == |wholes[g]|
  }

  lemma WriteStart(reqs: seq<Request>, segs: seq<Segment>, curs: seq<nat>, rests: seq<seq<byte>>, vecs: seq<IOVec>,
                   f: Filled)
    requires AllPlaced(segs) && curs == Curs(segs) && rests == Rests(segs) && FilledOk(reqs, segs, curs, rests, vecs, f)
    ensures CursAt(curs, rests, curs, 0) && Settled(f.ends, 0, 0) && VTotal(vecs[..0]) == 0
    ensures AllSpots(segs, vecs, f.spots) && |f.owner| == |f.spots| == |vecs|
    ensures Traced(reqs, curs, rests, Wholes(segs), vecs, f)
  {
    hide Base, Flat, InStream, Owned, AllPlaced, EndsOf, SpotOk;
    EndsAscend(reqs, rests, f.ends);
    assert |f.owner| == |vecs| by { OwnerLength(reqs, vecs, f.owner, f.ends); }
  }

  lemma OwnerLength(reqs: seq<Request>, vecs: seq<IOVec>, owner: seq<nat>, ends: seq<nat>)
    requires Owned(reqs, vecs, owner, ends)
    ensures |owner| == |vecs|
  {
  }

  /** One entry, or the start of it, is behind the cursor. */
  lemma WriteStep(reqs: seq<Request>, curs: seq<nat>, rests: seq<seq<byte>>, wholes: seq<seq<byte>>, vecs: seq<IOVec>,
                  f: Filled, i: nat, p: nat, t: nat, m: nat, before: seq<nat>)
    requires |curs| == |rests| == |wholes| && Traced(reqs, curs, rests, wholes, vecs, f)
    requires i < |vecs| && |f.owner| == |f.spots| == |vecs| && Settled(f.ends, p, t) && t == VTotal(vecs[..i])
    requires m <= |vecs[i].piece.dat|
    requires CursAt(curs, rests, before, t) && f.spots[i].seg < |curs| && f.spots[i].off + m <= |wholes[f.spots[i].seg]|
    ensures VTotal(vecs[..i + 1]) == t + |vecs[i].piece.dat|
    ensures |before| == |curs| && CursAt(curs, rests, before[f.spots[i].seg := f.spots[i].off + m], t + m)
    ensures var v, k := vecs[i], f.owner[i];
            && (v.req != null && m == |v.piece.dat| ==>
                 p <= k < |reqs| && v.req == reqs[k] && Settled(f.ends, k + 1, t + m))
            && (v.req == null || m < |v.piece.dat| ==> Settled(f.ends, p, t + m))
  {
    hide Base, Flat, VTotal, Settled, Ascending, CursAt;
    VTotalNext(vecs, i);
    assert OwnedAt(reqs, vecs[i], t, f.owner[i], f.ends);
    SettleMore(reqs, vecs[i], t, f.owner[i], f.ends, p, m);
    assert AtTotal(curs, rests, f.spots[i], t);
    MoveOne(curs, rests, before, f.spots[i], t, m);
    assert |before| == |curs| by { SameCount(curs, rests, before, t); }
  }

  lemma SameCount(curs: seq<nat>, rests: seq<seq<byte>>, before: seq<nat>, t: nat)
    requires |curs| == |rests| && CursAt(curs, rests, before, t)
    ensures |before| == |curs|
  {
  }

  lemma WriteEnd(vecs: seq<IOVec>, i: nat)
    requires i <= |vecs|
    ensures i == |vecs| ==> VTotal(vecs[..i]) == VTotal(vecs)
    ensures VTotal(vecs[..i]) <= VTotal(vecs)
    ensures i < |vecs| && vecs[|vecs| - 1].piece.dat != [] ==> VTotal(vecs[..i]) < VTotal(vecs)
  {
    hide VTotal;
    assert vecs[..|vecs|] == vecs;
    VTotalPrefix(vecs, i);
    if i < |vecs| {
      VTotalMonotone(vecs, i, |vecs| - 1);
      VTotalNext(vecs, |vecs| - 1);
    }
  }

  // ----- what is pending after a write ------------------------------------------------------------------------------

  /** The request whose reply's body is segment g. */
  lemma {:induction false} BodyOwner(reqs: seq<Request>, g: nat) returns (k: nat)
    requires g % 2 == 1 && g < |Segs(reqs)|
    ensures k < |reqs| && |Segs(reqs[..k])| == g - 1 && |Segs(reqs[..k + 1])| == g + 1
    decreases |reqs|
  {
    hide Segs, SegsOf;
    SegsStep(reqs);
    var n := |reqs| - 1;
    if g < |Segs(reqs[..n])| {
      k := BodyOwner(reqs[..n], g);
      assert reqs[..n][..k] == reqs[..k] && reqs[..n][..k + 1] == reqs[..k + 1];
    } else {
      k := n;
      assert reqs[..n + 1] == reqs;
    }
  }

  lemma SegsStep(reqs: seq<Request>)
    ensures reqs == [] ==> |Segs(reqs)| == 0
    ensures var n := |reqs| - 1;
            n >= 0 ==>
              && |Segs(reqs)| == |Segs(reqs[..n])| + |SegsOf(reqs[n])|
              && (|SegsOf(reqs[n])| == 0 || |SegsOf(reqs[n])| == 2)
  {
  }

  lemma SegsMonotone(reqs: seq<Request>, i: nat, j: nat)
    requires i <= j <= |reqs|
    ensures |Segs(reqs[..i])| <= |Segs(reqs[..j])| <= |Segs(reqs)|
  {
    SegsSplit(reqs, j);
    SegsSplit(reqs[..j], i);
    assert reqs[..j][..i] == reqs[..i];
  }

  /** Bodies of requests that were not popped have more than the n bytes before and in them. */
  lemma BodyBeyond(reqs: seq<Request>, rests: seq<seq<byte>>, ends: seq<nat>, p: nat, n: nat, g: nat)
    requires |rests| == |Segs(reqs)| && BodiesLeft(rests) && EndsOf(reqs, rests, ends)
    requires Settled(ends, p, n) && n <= ends[|ends| - 1] && p <= |reqs|
    requires g % 2 == 1 && |Segs(reqs[..p])| <= g < |rests|
    ensures n < Base(rests, g) + |rests[g]|
  {
    hide Base, Flat, Segs;
    var k := BodyOwner(reqs, g);
    FlatAt(rests, g);
    BaseMonotone(rests, g - 1, g);
    if k + 1 <= p { SegsMonotone(reqs, k + 1, p); assert false; }
    if k + 1 < |ends| {
      assert EndAt(reqs[..k], rests, ends[k]) && EndAt(reqs[..k + 1], rests, ends[k + 1]);
    } else {
      var d := |ends| - 1;
      assert EndAt(reqs[..d], rests, ends[d]);
      SegsMonotone(reqs, d, k);
      BaseMonotone(rests, |Segs(reqs[..d])|, g - 1);
    }
  }

  /** The rests behind moved cursors are what Consume leaves. */
  lemma RestsAfter(wholes: seq<seq<byte>>, curs: seq<nat>, rests: seq<seq<byte>>, curs': seq<nat>,
                   rests': seq<seq<byte>>, n: nat)
    requires |wholes| == |curs| == |rests| == |rests'| && CursAt(curs, rests, curs', n)
    requires forall g :: 0 <= g < |wholes| ==> curs[g] <= |wholes[g]| && rests[g] == wholes[g][curs[g]..]
    requires forall g :: 0 <= g < |wholes| ==> curs'[g] <= |wholes[g]| && rests'[g] == wholes[g][curs'[g]..]
    ensures rests' == Consume(rests, n)
  {
    hide Base, Flat, Consume;
    forall g | 0 <= g < |rests| ensures rests'[g] == Consume(rests, n)[g] {
      ConsumeAt(rests, n, g);
      var k := Clamp(n - Base(rests, g), |rests[g]|);
      assert wholes[g][curs[g]..][k..] == wholes[g][curs[g] + k..];
    }
  }

  /** Nothing is left of the segments that end at offset n or before. */
  lemma ConsumedPrefix(rests: seq<seq<byte>>, n: nat, c: nat)
    requires c <= |rests| && Base(rests, c) <= n
    ensures Flat(Consume(rests, n)) == Flat(Consume(rests, n)[c..])
  {
    hide Base, Flat, Consume;
    var after := Consume(rests, n);
    forall g | 0 <= g < c ensures after[g] == [] {
      ConsumeAt(rests, n, g);
      FlatAt(rests, g);
      BaseMonotone(rests, g + 1, c);
    }
    assert after == after[..c] + after[c..];
    FlatAppend(after[..c], after[c..]);
    FlatEmpty(after[..c]);
  }

  lemma {:induction false} FlatEmpty(cs: seq<seq<byte>>)
    requires forall g :: 0 <= g < |cs| ==> cs[g] == []
    ensures Flat(cs) == []
  {
    if cs != [] { FlatEmpty(cs[1..]); }
  }

  /** The reply that the place p of the queue is at. */
  lemma EndBefore(reqs: seq<Request>, rests: seq<seq<byte>>, ends: seq<nat>, p: nat, n: nat)
    requires EndsOf(reqs, rests, ends) && Settled(ends, p, n)
    ensures p <= |reqs| && |Segs(reqs[..p])| <= |rests| && Base(rests, |Segs(reqs[..p])|) <= n
  {
    hide Base, Flat, Segs;
    EndsAscend(reqs, rests, ends);
    assert EndAt(reqs[..p], rests, ends[p]);
  }

  /** All that follows from a write of n bytes, in terms of values: the pending bytes lose
      their first n, and every body still in the queue has bytes left. */
  lemma AfterWrite(reqs: seq<Request>, rests: seq<seq<byte>>, ends: seq<nat>, p: nat, n: nat, rests': seq<seq<byte>>)
    requires |rests| == |Segs(reqs)| && BodiesLeft(rests) && EndsOf(reqs, rests, ends)
    requires Settled(ends, p, n) && n <= ends[|ends| - 1] && rests' == Consume(rests, n)
    ensures p <= |reqs| && |Segs(reqs[..p])| <= |rests| && n <= |Flat(rests)|
    ensures Flat(rests'[|Segs(reqs[..p])|..]) == Flat(rests)[n..]
    ensures BodiesLeft(rests'[|Segs(reqs[..p])|..])
  {
    hide Base, Flat, Segs, Consume, Settled, EndsOf;
    EndBefore(reqs, rests, ends, p, n);
    var c := |Segs(reqs[..p])|;
    LastEnd(reqs, rests, ends);
    ConsumedPrefix(rests, n, c);
    ConsumeIsSuffix(rests, n);
    forall g | 0 <= g < |rests'[c..]| && g % 2 == 1 ensures rests'[c..][g] != [] {
      BodyBeyond(reqs, rests, ends, p, n, c + g);
      ConsumeAt(rests, n, c + g);
    }
  }

  lemma LastEnd(reqs: seq<Request>, rests: seq<seq<byte>>, ends: seq<nat>)
    requires EndsOf(reqs, rests, ends)
    ensures ends[|ends| - 1] <= |Flat(rests)|
  {
    hide Base, Flat, Segs;
    var d := |ends| - 1;
    assert EndAt(reqs[..d], rests, ends[d]);
    BaseMonotone(rests, |Segs(reqs[..d])|, |rests|);
  }

  /** The end of a list of segments. */
  lemma SegsFrom(segs: seq<Segment>, c: nat)
    requires c <= |segs| && Sound(segs) && AllPlaced(segs) && DistinctSegs(segs)
    ensures Sound(segs[c..]) && AllPlaced(segs[c..]) && DistinctSegs(segs[c..])
    ensures Rests(segs[c..]) == Rests(segs)[c..] && Wholes(segs[c..]) == Wholes(segs)[c..]
    ensures Curs(segs[c..]) == Curs(segs)[c..]
  {
    hide Segment.Valid, Segment.InPlace;
  }

  /** The values before a write, as far as what follows from it needs them. */
  ghost predicate Before(reqs: seq<Request>, curs: seq<nat>, rests: seq<seq<byte>>, wholes: seq<seq<byte>>,
                         ends: seq<nat>)
    reads reqs
  {
    && |curs| == |rests| == |wholes| == |Segs(reqs)| && BodiesLeft(rests) && EndsOf(reqs, rests, ends)
    && (forall g :: 0 <= g < |wholes| ==> curs[g] <= |wholes[g]| && rests[g] == wholes[g][curs[g]..])
    && (forall k :: 0 <= k < |ends| - 1 ==> reqs[k].done)
    && (forall k :: 0 <= k < |reqs| && !reqs[k].done ==> ZeroFrom(curs, |Segs(reqs[..k])|))
  }

  lemma UntouchedAfter(reqs: seq<Request>, curs: seq<nat>, rests: seq<seq<byte>>, wholes: seq<seq<byte>>,
                       ends: seq<nat>, segs: seq<Segment>, p: nat, n: nat)
    requires Before(reqs, curs, rests, wholes, ends) && segs == Segs(reqs) && AllPlaced(segs)
    requires CursAt(curs, rests, Curs(segs), n) && n <= ends[|ends| - 1] && p <= |reqs|
    requires |Segs(reqs[..p])| <= |segs| && Segs(reqs[p..]) == segs[|Segs(reqs[..p])|..] && AllPlaced(Segs(reqs[p..]))
    requires Curs(Segs(reqs[p..])) == Curs(segs)[|Segs(reqs[..p])|..]
    ensures Untouched(reqs[p..])
  {
    hide Base, Flat, Segs, AllPlaced, Curs, ZeroFrom, CursAt;
    var c, d := |Segs(reqs[..p])|, |ends| - 1;
    assert EndAt(reqs[..d], rests, ends[d]);
    forall k | 0 <= k < |reqs[p..]| && !reqs[p..][k].done
      ensures ZeroFrom(Curs(Segs(reqs[p..])), |Segs(reqs[p..][..k])|)
    {
      assert !reqs[p + k].done && reqs[p..][..k] == reqs[..p + k][p..] && reqs[..p + k][..p] == reqs[..p];
      SegsSplit(reqs[..p + k], p);
      SegsMonotone(reqs, d, p + k);
      ZeroAfter(curs, rests, Curs(segs), n, |Segs(reqs[..d])|, c, |Segs(reqs[p..][..k])|);
    }
  }

  /** Cursors past the place the write got to did not move. */
  lemma ZeroAfter(curs: seq<nat>, rests: seq<seq<byte>>, curs': seq<nat>, n: nat, e: nat, c: nat, g: nat)
    requires |curs| == |rests| && CursAt(curs, rests, curs', n) && e <= c + g && ZeroFrom(curs, c + g)
    requires e <= |rests| && n <= Base(rests, e) && c <= |curs'|
    ensures ZeroFrom(curs'[c..], g)
  {
    hide Base, Flat;
    var tail := curs'[c..];
    forall h | g <= h < |tail| ensures tail[h] == 0 {
      assert tail[h] == curs'[c + h];
      BaseMonotone(rests, e, c + h);
    }
  }

  /** The queue after a write. */
  lemma QueueAfter(reqs: seq<Request>, curs: seq<nat>, rests: seq<seq<byte>>, wholes: seq<seq<byte>>, ends: seq<nat>,
                   segs: seq<Segment>, p: nat, n: nat)
    requires Before(reqs, curs, rests, wholes, ends) && segs == Segs(reqs) && Sound(segs) && AllPlaced(segs)
    requires DistinctReqs(reqs) && DistinctSegs(segs) && Wholes(segs) == wholes
    requires CursAt(curs, rests, Curs(segs), n) && Settled(ends, p, n) && n <= ends[|ends| - 1]
    ensures p <= |reqs| && |Segs(reqs[..p])| <= |wholes| && Ready(reqs[p..]) && Untouched(reqs[p..])
    ensures n <= |Flat(rests)| && Pending(reqs[p..]) == Flat(rests)[n..]
    ensures Wholes(Segs(reqs[p..])) == wholes[|Segs(reqs[..p])|..]
    ensures forall k :: 0 <= k < p ==> reqs[k].done
  {
    hide Base, Flat, Segs, AllPlaced, Sound, DistinctSegs, DistinctReqs, Settled, CursAt, EndsOf, BodiesLeft;
    assert forall g :: 0 <= g < |segs| ==>
           Rests(segs)[g] == Wholes(segs)[g][Curs(segs)[g]..] by { RestsOfWholes(segs); }
    RestsAfter(wholes, curs, rests, Curs(segs), Rests(segs), n);
    AfterWrite(reqs, rests, ends, p, n, Rests(segs));
    SegsSplit(reqs, p);
    assert Segs(reqs[p..]) == segs[|Segs(reqs[..p])|..];
    SegsFrom(segs, |Segs(reqs[..p])|);
    assert p < |ends| by { PlaceInEnds(ends, p, n); }
    UntouchedAfter(reqs, curs, rests, wholes, ends, segs, p, n);
    assert DistinctReqs(reqs[p..]) by { DistinctSuffix(reqs, p); }
  }

  lemma PlaceInEnds(ends: seq<nat>, p: nat, n: nat)
    requires Settled(ends, p, n)
    ensures p < |ends|
  {
  }

  lemma DistinctSuffix(reqs: seq<Request>, p: nat)
    requires DistinctReqs(reqs) && p <= |reqs|
    ensures DistinctReqs(reqs[p..])
  {
  }

  lemma RestsOfWholes(segs: seq<Segment>)
    requires AllPlaced(segs)
    ensures forall g :: 0 <= g < |segs| ==>
            Curs(segs)[g] <= |Wholes(segs)[g]| && Rests(segs)[g] == Wholes(segs)[g][Curs(segs)[g]..]
  {
    hide Segment.InPlace, Segment.Bytes;
  }

  /** After all of a vector that had room for more, nothing before the first unanswered
      request is left. */
  lemma AllOutAfter(reqs: seq<Request>, rests: seq<seq<byte>>, ends: seq<nat>, p: nat)
    requires |rests| == |Segs(reqs)| && BodiesLeft(rests) && EndsOf(reqs, rests, ends)
    requires Settled(ends, p, ends[|ends| - 1])
    requires |ends| > |reqs| || !reqs[|ends| - 1].done
    ensures p <= |reqs| && AllOut(reqs[p..])
  {
    hide Base, Flat, Segs;
    var d := |ends| - 1;
    EndsAscend(reqs, rests, ends);
    forall k | 0 <= k < |reqs[p..]| && (forall i :: 0 <= i <= k ==> reqs[p..][i].done)
      ensures reqs[p..][k].res == null
    {
      var r := reqs[p + k];
      if p + k < d {
        assert reqs[p..][k].done;
        if r.res != null {
          assert EndAt(reqs[..p + k], rests, ends[p + k]) && EndAt(reqs[..p + k + 1], rests, ends[p + k + 1]);
          SegsAt(reqs, p + k);
          var g := |Segs(reqs[..p + k])|;
          FlatAt(rests, g);
          FlatAt(rests, g + 1);
        }
      }
    }
  }

  lemma PoppedSegs(all: seq<Request>, p0: nat, p1: nat)
    requires p0 + p1 <= |all| && Segs(all[p0..]) == Segs(all)
    ensures Segs(all[..p0 + p1]) == Segs(all[p0..][..p1]) && all[p0..][p1..] == all[p0 + p1..]
    ensures Segs(all[..p0]) == []
  {
    hide Segs;
    SegsSplit(all, p0);
    SegsSplit(all[..p0 + p1], p0);
    assert all[..p0 + p1][..p0] == all[..p0] && all[..p0 + p1][p0..] == all[p0..][..p1];
  }

  /** The values after fill. */
  lemma BeforeWrite(all: seq<Request>, p0: nat, segs: seq<Segment>, curs: seq<nat>, rests: seq<seq<byte>>,
                    wholes: seq<seq<byte>>, vecs: seq<IOVec>, f: Filled)
    requires p0 <= |all| && segs == Segs(all) == Segs(all[p0..]) && AllPlaced(segs) && Untouched(all)
    requires DistinctReqs(all)
    requires curs == Curs(segs) && rests == Rests(segs) && wholes == Wholes(segs) && BodiesLeft(rests)
    requires FilledOk(all[p0..], segs, curs, rests, vecs, f)
    ensures Before(all[p0..], curs, rests, wholes, f.ends) && DistinctReqs(all[p0..])
    ensures EndsOf(all[p0..], rests, f.ends) && 0 < |f.ends| && VTotal(vecs) <= f.ends[|f.ends| - 1]
  {
    hide Base, Flat, Segs, AllPlaced, BodiesLeft, EndsOf, Owned, InStream, AllSpots, VTotal;
    RestsOfWholes(segs);
    DistinctSuffix(all, p0);
    var reqs := all[p0..];
    forall k | 0 <= k < |reqs| && !reqs[k].done ensures ZeroFrom(curs, |Segs(reqs[..k])|) {
      assert !all[p0 + k].done;
      PoppedSegs(all, p0, k);
    }
  }

  lemma AllOutLater(reqs: seq<Request>, curs: seq<nat>, rests: seq<seq<byte>>, wholes: seq<seq<byte>>, ends: seq<nat>,
                    p: nat, n: nat)
    requires Before(reqs, curs, rests, wholes, ends) && Settled(ends, p, n) && n == ends[|ends| - 1]
    requires |ends| > |reqs| || !reqs[|ends| - 1].done
    ensures p <= |reqs| && AllOut(reqs[p..])
  {
    hide Base, Flat, Segs, EndsOf, BodiesLeft, Settled, AllOut;
    AllOutAfter(reqs, rests, ends, p);
  }

  lemma ReadyParts(reqs: seq<Request>)
    requires Ready(reqs)
    ensures DistinctReqs(reqs) && DistinctSegs(Segs(reqs)) && Sound(Segs(reqs)) && AllPlaced(Segs(reqs))
    ensures BodiesLeft(Rests(Segs(reqs)))
  {
  }
}
