/** Whole runs of a client's connection: requests are parsed, replies come in any order into
    buffers that go on filling, and writev takes any number of bytes. */
module ClientRun {
  import opened Bytes
  import opened Buffers
  import opened ClientOutput

  /** `r` counts the client's requests from the first one on. */
  datatype Event =
    | Parsed
    | Replied(r: nat, head: seq<byte>, body: seq<byte>)
    | NoReply(r: nat)
    | Received(data: seq<byte>)
    | OtherBuffer
    | Writable(answers: nat -> int)

  /** The reply to each request, [] if there is none yet, and which requests are done. */
  datatype History = History(log: seq<seq<byte>>, done: seq<bool>)

  /** Replies have a body; a second reply to a request does not count. */
  function Next(h: History, e: Event): (h': History)
    requires |h.log| == |h.done|
    ensures |h'.log| == |h'.done|
  {
    match e
    case Parsed => History(h.log + [[]], h.done + [false])
    case Replied(r, head, body) =>
      if r < |h.done| && !h.done[r] && body != [] then History(h.log[r := head + body], h.done[r := true]) else h
    case NoReply(r) => if r < |h.done| && !h.done[r] then History(h.log[r := []], h.done[r := true]) else h
    case Received(_) => h
    case OtherBuffer => h
    case Writable(_) => h
  }

  function Run(events: seq<Event>): (h: History)
    ensures |h.log| == |h.done|
  {
    if events == [] then History([], []) else Next(Run(events[..|events| - 1]), events[|events| - 1])
  }

  /** How many requests from the first one on are done. */
  function Front(done: seq<bool>): (n: nat)
    ensures n <= |done| && (forall i :: 0 <= i < n ==> done[i]) && (n < |done| ==> !done[n])
  {
    if done == [] || !done[0] then 0 else 1 + Front(done[1..])
  }

  /** What was sent, and how many requests left the queue. */
  datatype Snap = Snap(sent: seq<byte>, popped: nat)

  /** The pieces of the vectors that were handed to writev, turn by turn. */
  type Vectors = seq<seq<seq<byte>>>

  /** What writev took of them, when it would take `answers(i)` of enough bytes in turn i. */
  function Written(ds: Vectors, answers: nat -> int): seq<byte>
  {
    if ds == [] then [] else
    var last := |ds| - 1;
    Written(ds[..last], answers) + Flat(ds[last])[..Clamp(answers(last), |Flat(ds[last])|)]
  }

  /** All bytes were taken, and the last piece had some. */
  predicate TookAll(d: seq<seq<byte>>, answer: int) { d != [] && answer >= |Flat(d)| && d[|d| - 1] != [] }

  /** The client could be written to, after history h. Writing goes on while everything is
      taken; once nothing is left to offer, or the last offer was taken, every reply before
      the first unanswered request is out, and its request is gone. */
  ghost predicate Wrote(h: History, max: nat, answers: nat -> int, a: Snap, b: Snap)
    requires |h.log| == |h.done|
  {
    && a.popped <= b.popped <= Front(h.done)
    && Flat(h.log[..b.popped]) <= b.sent <= Flat(h.log[..Front(h.done)])
    && exists ds: Vectors :: b.sent == a.sent + Written(ds, answers) && Offered(h, max, answers, ds, b)
  }

  ghost predicate Offered(h: History, max: nat, answers: nat -> int, ds: Vectors, b: Snap)
    requires |h.log| == |h.done|
  {
    && ds != []
    && (forall i :: 0 <= i < |ds| - 1 ==> |ds[i]| == max && TookAll(ds[i], answers(i)))
    && (forall i :: 0 <= i < |ds| ==> |ds[i]| <= max && (ds[i] != [] && max > 1 ==> Flat(ds[i]) != []))
    && var last := |ds| - 1;
       ds[last] == [] || TookAll(ds[last], answers(last)) ==>
         && b.sent == Flat(h.log[..Front(h.done)])
         && forall r :: b.popped <= r < Front(h.done) ==> h.log[r] == []
  }

  /** The states of a run; only when the client can be written to is anything sent. */
  ghost predicate Trace(ss: seq<Snap>, events: seq<Event>, max: nat)
  {
    && |ss| == |events| + 1 && ss[0] == Snap([], 0)
    && forall i :: 0 <= i < |events| ==> Follow(Run(events[..i]), events[i], max, ss[i], ss[i + 1])
  }

  ghost predicate Follow(h: History, e: Event, max: nat, a: Snap, b: Snap)
    requires |h.log| == |h.done|
  {
    if e.Writable? then Wrote(h, max, e.answers, a, b) else b == a
  }

  /** The requests in the queue are the last of the history, those before them are done. */
  ghost predicate Follows(reqs: seq<Request>, popped: int, done: seq<bool>)
    reads reqs
  {
    && 0 <= popped && popped + |reqs| == |done|
    && (forall r :: 0 <= r < popped ==> done[r])
    && forall i :: 0 <= i < |reqs| ==> reqs[i].done == done[popped + i]
  }

  /** The connection, and the buffer that the next bytes go into. */
  ghost predicate Serving(conn: AcceptConnection, buf: Buffer, bs: seq<Buffer>, h: History)
    reads conn, conn.requests, Segs(conn.requests), Chains(Segs(conn.requests)), Contents(Segs(conn.requests)), bs, buf
  {
    && conn.Valid() && IsTail(bs, buf) && OwnArray(buf, Segs(conn.requests))
    && conn.log == h.log && Follows(conn.requests, conn.Popped(), h.done)
  }

  lemma Parts(conn: AcceptConnection, buf: Buffer, bs: seq<Buffer>, h: History)
    ensures Serving(conn, buf, bs, h) <==>
              && conn.Valid() && IsTail(bs, buf) && OwnArray(buf, Segs(conn.requests))
              && conn.log == h.log && Follows(conn.requests, conn.Popped(), h.done)
  {
  }

  ghost function Pieces(vecs: seq<IOVec>): (d: seq<seq<byte>>)
    ensures |d| == |vecs| && forall j :: 0 <= j < |d| ==> d[j] == vecs[j].piece.dat
  {
    seq(|vecs|, j requires 0 <= j < |vecs| => vecs[j].piece.dat)
  }

  ghost function AllPieces(turns: seq<seq<IOVec>>): (ds: Vectors)
    ensures |ds| == |turns| && forall i :: 0 <= i < |ds| ==> ds[i] == Pieces(turns[i])
  {
    seq(|turns|, i requires 0 <= i < |turns| => Pieces(turns[i]))
  }

  lemma {:induction false} PiecesFlat(vecs: seq<IOVec>)
    ensures Flat(Pieces(vecs)) == VData(vecs) && |Flat(Pieces(vecs))| == VTotal(vecs)
  {
    if vecs != [] {
      var n := |vecs| - 1;
      PiecesFlat(vecs[..n]);
      assert Pieces(vecs) == Pieces(vecs[..n]) + [vecs[n].piece.dat];
      FlatAppend(Pieces(vecs[..n]), [vecs[n].piece.dat]);
      assert Flat([vecs[n].piece.dat]) == vecs[n].piece.dat + Flat([]);
    }
  }

  lemma {:induction false} WrittenIsTaken(turns: seq<seq<IOVec>>, answers: nat -> int)
    ensures Written(AllPieces(turns), answers) == AllTaken(turns, answers)
  {
    if turns != [] {
      var last := |turns| - 1;
      WrittenIsTaken(turns[..last], answers);
      assert AllPieces(turns)[..last] == AllPieces(turns[..last]);
      PiecesFlat(turns[last]);
    }
  }

  /** What WriteEvent says of its vectors, in bytes. */
  lemma TurnsOffered(h: History, max: nat, answers: nat -> int, turns: seq<seq<IOVec>>, b: Snap)
    requires |h.log| == |h.done| && turns != []
    requires forall i :: 0 <= i < |turns| - 1 ==> |turns[i]| == max && InFull(turns[i], answers(i))
    requires forall i :: 0 <= i < |turns| ==> |turns[i]| <= max && (turns[i] != [] && max > 1 ==> VTotal(turns[i]) > 0)
    requires turns[|turns| - 1] == [] || InFull(turns[|turns| - 1], answers(|turns| - 1)) ==>
               && b.sent == Flat(h.log[..Front(h.done)])
               && forall r :: b.popped <= r < Front(h.done) ==> h.log[r] == []
    ensures Offered(h, max, answers, AllPieces(turns), b)
  {
    hide Flat, Front, VTotal, VData;
    forall i | 0 <= i < |turns|
      ensures |Flat(Pieces(turns[i]))| == VTotal(turns[i])
      ensures TookAll(Pieces(turns[i]), answers(i)) <==> InFull(turns[i], answers(i))
    {
      PiecesFlat(turns[i]);
    }
  }

  /** The first unanswered request of the queue is that of the history. */
  lemma FrontOfQueue(reqs: seq<Request>, popped: nat, done: seq<bool>)
    requires Follows(reqs, popped, done)
    ensures popped <= Front(done) && Front(done) - popped <= |reqs|
    ensures forall i :: 0 <= i < Front(done) - popped ==> reqs[i].done
    ensures Front(done) - popped < |reqs| ==> !reqs[Front(done) - popped].done
  {
  }

  method NewRequest(ghost conn: AcceptConnection, ghost buf: Buffer, ghost bs: seq<Buffer>, ghost h: History,
                    ghost segs: seq<Segment>, ghost chains: set<object>, ghost contents: set<object>)
    returns (req: Request)
    requires Serving(conn, buf, bs, h) && segs == Segs(conn.requests) && chains == Chains(segs)
    requires contents == Contents(segs)
    ensures Serving(conn, buf, bs, h) && fresh(req) && !req.done && req !in conn.requests
  {
    hide *;
    req := new Request();
    assert forall s :: s in segs ==> unchanged(s);
    assert unchanged(chains) && unchanged(contents);
  }

  /** A request is parsed and joins the queue. */
  method OnParsed(conn: AcceptConnection, buf: Buffer, ghost bs: seq<Buffer>, ghost h: History,
                  ghost segs: seq<Segment>)
    requires Serving(conn, buf, bs, h) && |h.log| == |h.done| && segs == Segs(conn.requests)
    modifies conn
    ensures Serving(conn, buf, bs, Next(h, Parsed)) && conn.Popped() == old(conn.Popped())
    ensures conn.sent == old(conn.sent)
    ensures Segs(conn.requests) == segs && forall r :: r in conn.requests ==> r in old(conn.requests) || fresh(r)
  {
    hide *;
    var req := NewRequest(conn, buf, bs, h, segs, Chains(segs), Contents(segs));
    Parts(conn, buf, bs, h);
    ghost var reqs := conn.requests;
    conn.Push(req);
    OneMore(reqs, req, conn.Popped(), h);
    assert forall s :: s in segs ==> unchanged(s);
    Parts(conn, buf, bs, Next(h, Parsed));
  }

  lemma OneMore(reqs: seq<Request>, req: Request, popped: int, h: History)
    requires Follows(reqs, popped, h.done) && !req.done && |h.log| == |h.done|
    ensures Next(h, Parsed).log == h.log + [[]] && Follows(reqs + [req], popped, Next(h, Parsed).done)
  {
  }

  /** A reply to request r is made at the end of the buffer. */
  method OnReplied(conn: AcceptConnection, popped: nat, r: nat, head: seq<byte>, body: seq<byte>, buf: Buffer,
                   ghost bs: seq<Buffer>, ghost h: History, ghost segs: seq<Segment>)
    returns (buf': Buffer, ghost bs': seq<Buffer>)
    requires Serving(conn, buf, bs, h) && |h.log| == |h.done| && segs == Segs(conn.requests) && popped == conn.Popped()
    modifies conn, conn.requests, buf, buf.dat
    ensures Serving(conn, buf', bs', Next(h, Replied(r, head, body))) && conn.requests == old(conn.requests)
    ensures popped == conn.Popped() && conn.sent == old(conn.sent)
    ensures buf' == buf || (fresh(buf') && fresh(buf'.dat))
    ensures forall s :: s in Segs(conn.requests) ==> s in segs || fresh(s)
  {
    hide *;
    buf', bs' := buf, bs;
    Parts(conn, buf, bs, h);
    AtPlace(conn.requests, popped, h, r);
    if popped <= r < popped + |conn.requests| && !conn.requests[r - popped].done && body != [] {
      ghost var more;
      Flags(conn.requests, popped, h.done);
      buf', more := conn.Respond(r - popped, head, body, buf, bs);
      bs' := bs + more;
      OneDone(conn.requests, popped, h.done, r);
      Parts(conn, buf', bs', Next(h, Replied(r, head, body)));
    }
  }

  /** Request r is done without a reply. */
  method OnNoReply(conn: AcceptConnection, popped: nat, r: nat, ghost buf: Buffer, ghost bs: seq<Buffer>,
                   ghost h: History, ghost segs: seq<Segment>)
    requires Serving(conn, buf, bs, h) && |h.log| == |h.done| && segs == Segs(conn.requests) && popped == conn.Popped()
    modifies conn, conn.requests
    ensures Serving(conn, buf, bs, Next(h, NoReply(r))) && conn.requests == old(conn.requests)
    ensures popped == conn.Popped() && conn.sent == old(conn.sent)
    ensures Segs(conn.requests) == segs
  {
    hide *;
    Parts(conn, buf, bs, h);
    AtPlace(conn.requests, popped, h, r);
    if popped <= r < popped + |conn.requests| && !conn.requests[r - popped].done {
      Flags(conn.requests, popped, h.done);
      conn.Drop(r - popped);
      OneDone(conn.requests, popped, h.done, r);
      assert forall s :: s in segs ==> unchanged(s);
      Parts(conn, buf, bs, Next(h, NoReply(r)));
    }
  }

  /** Bytes are read into the buffer. */
  method OnReceived(conn: AcceptConnection, data: seq<byte>, buf: Buffer, ghost bs: seq<Buffer>, ghost h: History,
                    ghost segs: seq<Segment>)
    returns (buf': Buffer, ghost bs': seq<Buffer>)
    requires Serving(conn, buf, bs, h) && segs == Segs(conn.requests)
    modifies buf, buf.dat
    ensures Serving(conn, buf', bs', h) && (buf' == buf || (fresh(buf') && fresh(buf'.dat)))
    ensures Segs(conn.requests) == segs
  {
    hide *;
    Parts(conn, buf, bs, h);
    ghost var more;
    ghost var reqs := conn.requests;
    buf', more := conn.Grow(buf, data, bs);
    bs' := bs + more;
    assert forall r :: r in reqs ==> unchanged(r);
    Parts(conn, buf', bs', h);
  }

  /** What comes next goes into a new buffer, not linked to the others. */
  method OnOtherBuffer(conn: AcceptConnection, size: nat, ghost buf: Buffer, ghost bs: seq<Buffer>, ghost h: History,
                       ghost segs: seq<Segment>)
    returns (buf': Buffer, ghost bs': seq<Buffer>)
    requires Serving(conn, buf, bs, h) && segs == Segs(conn.requests) && size > 0
    ensures Serving(conn, buf', bs', h) && fresh(buf') && fresh(buf'.dat)
    ensures Segs(conn.requests) == segs
  {
    hide *;
    buf' := AnotherBuffer(conn, size, buf, bs, h, segs, Chains(segs), Contents(segs));
    bs' := [buf'];
    Parts(conn, buf', bs', h);
  }

  method AnotherBuffer(ghost conn: AcceptConnection, size: nat, ghost buf: Buffer, ghost bs: seq<Buffer>,
                       ghost h: History, ghost segs: seq<Segment>, ghost chains: set<object>,
                       ghost contents: set<object>)
    returns (buf': Buffer)
    requires Serving(conn, buf, bs, h) && segs == Segs(conn.requests) && chains == Chains(segs) && size > 0
    requires contents == Contents(segs)
    ensures fresh(buf') && fresh(buf'.dat) && IsTail([buf'], buf') && OwnArray(buf', segs)
    ensures segs == Segs(conn.requests) && conn.Valid() && conn.log == h.log
    ensures Follows(conn.requests, conn.Popped(), h.done)
  {
    hide *;
    Parts(conn, buf, bs, h);
    conn.ValidParts();
    ReadyParts(conn.requests);
    buf' := NewBuffer(size, segs, chains, contents, buf);
    assert forall s :: s in segs ==> unchanged(s);
    assert unchanged(chains) && unchanged(contents);
  }

  /** The client can be written to. */
  method OnWritable(conn: AcceptConnection, popped: nat, max: nat, answers: nat -> int, ghost buf: Buffer,
                    ghost bs: seq<Buffer>, ghost h: History, ghost segs: seq<Segment>)
    returns (popped': nat)
    requires Serving(conn, buf, bs, h) && |h.log| == |h.done| && max > 0
    requires segs == Segs(conn.requests) && popped == conn.Popped()
    modifies conn, segs
    ensures Serving(conn, buf, bs, h) && popped' == conn.Popped()
    ensures Wrote(h, max, answers, Snap(old(conn.sent), popped), Snap(conn.sent, popped'))
    ensures forall r :: r in conn.requests ==> r in old(conn.requests)
    ensures forall s :: s in Segs(conn.requests) ==> s in segs
  {
    hide *;
    Parts(conn, buf, bs, h);
    ghost var reqs := conn.requests;
    var n := |conn.requests|;
    OwnByChains(buf, segs);
    conn.PoppedIs();
    var finished;
    ghost var turns, p;
    finished, turns, p := conn.WriteEvent(max, answers);
    popped' := popped + (n - |conn.requests|);
    conn.PoppedIs();
    assert forall r :: r in reqs ==> unchanged(r);
    FollowsLater(reqs, popped, h.done, p);
    OwnByChains(buf, segs);
    OwnSubset(segs, Segs(conn.requests), buf);
    Parts(conn, buf, bs, h);
    ItWrote(conn, h, max, answers, turns, Snap(old(conn.sent), popped), Snap(conn.sent, popped'));
  }

  lemma NoneBefore(reqs: seq<Request>, f: nat)
    requires AllOut(reqs) && f <= |reqs| && forall i :: 0 <= i < f ==> reqs[i].done
    ensures forall k :: 0 <= k < f ==> reqs[k].res == null
  {
  }

  lemma ItWrote(conn: AcceptConnection, h: History, max: nat, answers: nat -> int, turns: seq<seq<IOVec>>, a: Snap,
                b: Snap)
    requires conn.Valid() && conn.log == h.log && b == Snap(conn.sent, conn.Popped()) && |h.log| == |h.done|
    requires Follows(conn.requests, conn.Popped(), h.done) && a.popped <= b.popped && turns != []
    requires b.sent == a.sent + AllTaken(turns, answers)
    requires forall i :: 0 <= i < |turns| - 1 ==> |turns[i]| == max && InFull(turns[i], answers(i))
    requires forall i :: 0 <= i < |turns| ==> |turns[i]| <= max && (turns[i] != [] && max > 1 ==> VTotal(turns[i]) > 0)
    requires turns[|turns| - 1] == [] || InFull(turns[|turns| - 1], answers(|turns| - 1)) ==> AllOut(conn.requests)
    ensures Wrote(h, max, answers, a, b)
  {
    hide Flat, AllTaken, InFull, VTotal, Front, Offered, Written, AllPieces, Follows, AcceptConnection.Valid, AllOut;
    FrontOfQueue(conn.requests, conn.Popped(), h.done);
    conn.SentInOrder();
    conn.SentUpTo(Front(h.done) - conn.Popped());
    if AllOut(conn.requests) { NoneBefore(conn.requests, Front(h.done) - conn.Popped()); }
    TurnsOffered(h, max, answers, turns, b);
    WrittenIsTaken(turns, answers);
  }

  lemma OwnByChains(buf: Buffer, segs: seq<Segment>)
    ensures OwnArray(buf, segs) <==> OwnIn(buf, ChainList(segs))
  {
  }

  ghost predicate OwnIn(buf: Buffer, chains: seq<seq<Buffer>>)
  {
    forall g, i :: 0 <= g < |chains| && 0 <= i < |chains[g]| && chains[g][i] != buf ==> chains[g][i].dat != buf.dat
  }

  lemma Flags(reqs: seq<Request>, popped: nat, done: seq<bool>)
    requires Follows(reqs, popped, done)
    ensures popped + |reqs| == |done| && (forall r :: 0 <= r < popped ==> done[r])
    ensures forall i :: 0 <= i < |reqs| ==> reqs[i].done == done[popped + i]
  {
  }

  lemma OneDone(reqs: seq<Request>, popped: nat, done: seq<bool>, r: nat)
    requires popped <= r < popped + |reqs| == |done| && (forall r :: 0 <= r < popped ==> done[r])
    requires reqs[r - popped].done
    requires forall i :: 0 <= i < |reqs| && i != r - popped ==> reqs[i].done == done[popped + i]
    ensures Follows(reqs, popped, done[r := true])
  {
  }

  lemma FollowsLater(reqs: seq<Request>, popped: nat, done: seq<bool>, p: nat)
    requires Follows(reqs, popped, done) && p <= |reqs| && forall k :: 0 <= k < p ==> reqs[k].done
    ensures Follows(reqs[p..], popped + p, done)
  {
    forall r | 0 <= r < popped + p ensures done[r] {
      if r >= popped { assert reqs[r - popped].done; }
    }
  }

  /** What happens to request r counts if it is in the queue and not done. */
  lemma AtPlace(reqs: seq<Request>, popped: nat, h: History, r: nat)
    requires Follows(reqs, popped, h.done) && |h.log| == |h.done|
    ensures var open := popped <= r < popped + |reqs| && !reqs[r - popped].done;
            && (open ==> r < |h.log|)
            && (forall head, body :: Next(h, Replied(r, head, body)) ==
                 if open && body != [] then History(h.log[r := head + body], h.done[r := true]) else h)
            && Next(h, NoReply(r)) == if open then History(h.log[r := []], h.done[r := true]) else h
  {
  }

  /** For every run: what the client was sent is a prefix of the replies in request order,
      every request that left the queue was sent its whole reply, and each time the client
      can be written to it is sent as much as it takes. */
  method Serve(events: seq<Event>, size: nat, max: nat) returns (conn: AcceptConnection, ghost ss: seq<Snap>)
    requires size > 0 && max > 0
    ensures conn.Valid() && conn.log == Run(events).log
    ensures conn.sent <= Flat(Run(events).log)
    ensures 0 <= conn.Popped() <= |Run(events).log| && Flat(Run(events).log[..conn.Popped()]) <= conn.sent
    ensures Trace(ss, events, max) && ss[|events|] == Snap(conn.sent, conn.Popped())
  {
    hide *;
    var buf := new Buffer(size);
    conn := new AcceptConnection();
    ghost var bs, h := [buf], History([], []);
    Begin(conn, buf, max);
    var popped: nat, i := 0, 0;
    ss := [Snap([], 0)];
    while i < |events|
      invariant i <= |events| && h == Run(events[..i]) && |h.log| == |h.done|
      invariant Serving(conn, buf, bs, h) && popped == conn.Popped()
      invariant fresh(conn) && fresh(buf) && fresh(buf.dat)
      invariant (forall r :: r in conn.requests ==> fresh(r)) && forall s :: s in Segs(conn.requests) ==> fresh(s)
      invariant |ss| == i + 1 && Trace(ss, events[..i], max) && ss[i] == Snap(conn.sent, popped)
      decreases |events| - i
    {
      ghost var segs := Segs(conn.requests);
      RunNext(events, i);
      assert forall k :: 0 <= k < |conn.requests| ==> conn.requests[k] in conn.requests;
      assert forall k :: 0 <= k < |segs| ==> segs[k] in segs;
      match events[i] {
      case Parsed => OnParsed(conn, buf, bs, h, segs);
      case Replied(r, head, body) => buf, bs := OnReplied(conn, popped, r, head, body, buf, bs, h, segs);
      case NoReply(r) => OnNoReply(conn, popped, r, buf, bs, h, segs);
      case Received(data) => buf, bs := OnReceived(conn, data, buf, bs, h, segs);
      case OtherBuffer => buf, bs := OnOtherBuffer(conn, size, buf, bs, h, segs);
      case Writable(answers) => popped := OnWritable(conn, popped, max, answers, buf, bs, h, segs);
      }
      TraceMore(ss, events, i, max, h, Snap(conn.sent, popped));
      h, ss := Next(h, events[i]), ss + [Snap(conn.sent, popped)];
      i := i + 1;
    }
    assert events[..i] == events;
    Parts(conn, buf, bs, h);
    conn.SentInOrder();
  }

  lemma TraceMore(ss: seq<Snap>, events: seq<Event>, n: nat, max: nat, h: History, b: Snap)
    requires n < |events| && |ss| == n + 1 && Trace(ss, events[..n], max) && h == Run(events[..n])
    requires |h.log| == |h.done|
    requires if events[n].Writable? then Wrote(h, max, events[n].answers, ss[n], b) else b == ss[n]
    ensures Trace(ss + [b], events[..n + 1], max)
  {
    hide Wrote, Run;
    forall i | 0 <= i < n + 1 ensures events[..n + 1][..i] == events[..i] {
    }
    forall i | 0 <= i < n ensures events[..n][..i] == events[..i] {
    }
  }

  lemma RunNext(events: seq<Event>, i: nat)
    requires i < |events|
    ensures Run(events[..i + 1]) == Next(Run(events[..i]), events[i])
    ensures var h := Run(events[..i]);
            events[i].Received? || events[i].OtherBuffer? || events[i].Writable? ==> Next(h, events[i]) == h
  {
    assert events[..i + 1][..i] == events[..i];
  }

  lemma Begin(conn: AcceptConnection, buf: Buffer, max: nat)
    requires conn.Valid() && conn.requests == [] && conn.log == [] && buf.next == null && buf.len == 0 < buf.dat.Length
    ensures Serving(conn, buf, [buf], History([], [])) && conn.Popped() == 0 && Segs(conn.requests) == []
    ensures Run([]) == History([], []) && Trace([Snap([], 0)], [], max)
  {
  }
}
