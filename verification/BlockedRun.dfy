/** Whole runs of a server with blocked clients: clients connect, block, time out and go,
    keys are written and deleted, and ready keys are served. */
module BlockedRun {
  import opened Options
  import opened Blocked

  /** Served is what follows every command: handleClientsBlockedOnKeys. */
  datatype Event =
    | Connected(c: ClientId)
    | Gone(c: ClientId)
    | Blocks(c: ClientId, t: BType, keys: seq<Key>, target: Option<Key>, wher: Where, after: seq<int>)
    | TimedOut(c: ClientId)
    | Stored(k: Key, o: Obj)
    | Changed(k: Key, o: Obj)
    | Deleted(k: Key)
    | StreamAdd(k: Key, last: int)
    | Served
    | Reprocessed

  /** A state, as events see and change it. */
  datatype Snap = Snap(clients: Clients, waiting: Waiting, db: Database, ready: seq<Key>, unblocked: seq<ClientId>,
                       delivered: seq<Delivery>)

  const BOOT := Snap(map[], map[], map[], [], [], [])

  ghost function View(s: Server): Snap
    reads s
  {
    Snap(s.clients, s.waiting, s.db, s.readyKeys, s.unblocked, s.delivered)
  }

  /** In every reachable state. */
  ghost predicate Inv(s: Server)
    reads s
  {
    s.Valid([]) && Full(s.db, None) && NoLost(s.clients, s.waiting, s.db, s.readyDict, None)
  }

  /** The source takes the event: a client blocks only on keys that hold nothing for it, and
      a value changes in place only into one of its type. Other events do nothing. */
  predicate Enabled(cs: Clients, db: Database, e: Event)
  {
    match e
    case Connected(c) => c !in cs
    case Gone(c) => c in cs
    case Blocks(c, t, keys, _, _, after) =>
      && c in cs && cs[c].btype == NotBlocked && t != NotBlocked && keys != [] && |after| == |keys|
      && forall j :: 0 <= j < |keys| && keys[j] in db ==> !Serves(db[keys[j]], t, after[j])
    case TimedOut(c) => c in cs && cs[c].btype != NotBlocked
    case Stored(k, o) => NotEmpty(o)
    case Changed(k, o) => k in db && SameType(db[k], o) && NotEmpty(o)
    case Deleted(_) => true
    case StreamAdd(k, last) => if k in db then db[k].StreamObj? && db[k].last < last else 0 < last
    case Served => true
    case Reprocessed => true
  }

  /** Overwriting a key that is not queued, or adding a stream there, by something that a client
      waits for. */
  predicate Forgets(cs: Clients, w: Waiting, db: Database, ready: seq<Key>, e: Event)
  {
    e.Stored? && (e.k in db || !Wakes(e.o)) && e.k !in ready && Wanted(cs, w, e.k, e.o)
  }

  /** What an enabled event does. */
  ghost predicate Took(a: Snap, e: Event, b: Snap)
  {
    match e
    case Connected(c) => b == a.(clients := a.clients[c := IDLE])
    case Gone(c) =>
      && b == a.(clients := a.clients - {c}, waiting := b.waiting, unblocked := b.unblocked)
      && Left(a.waiting, c, b.waiting) && forall d :: d in b.unblocked <==> d in a.unblocked && d != c
    case Blocks(c, t, keys, target, wher, after) =>
      && b == a.(clients := b.clients, waiting := b.waiting) && c in a.clients && c in b.clients && |keys| == |after|
      && b.clients == a.clients[c :=
                        a.clients[c].(btype := t, keys := b.clients[c].keys, target := target, wher := wher)]
      && b.clients[c].keys.Keys == (set k | k in keys) && Asked(b.clients[c].keys, keys, after, |keys|)
      && forall k :: QueueOf(b.waiting, k)
                  == QueueOf(a.waiting, k) + if k in keys then [Node(b.clients[c].keys[k].node, c)] else []
    case TimedOut(c) =>
      && b == a.(clients := b.clients, waiting := b.waiting, unblocked := b.unblocked) && c in a.clients
      && b.clients == a.clients[c := a.clients[c].(btype := NotBlocked, keys := map[], target := None, queued := true)]
      && Left(a.waiting, c, b.waiting)
    case Stored(k, o) =>
      && b == a.(db := a.db[k := o], ready := b.ready)
      && b.ready == a.ready + if k !in a.db && Wakes(o) && k in a.waiting && k !in a.ready then [k] else []
    case Changed(k, o) => b == a.(db := a.db[k := o])
    case Deleted(k) => b == a.(db := a.db - {k})
    case StreamAdd(k, last) =>
      && b == a.(db := a.db[k := StreamObj(last, last)], ready := b.ready)
      && b.ready == a.ready + if TypeSet(a.clients, OnStream) != {} && k in a.waiting && k !in a.ready then [k] else []
    case Served =>
      && b.ready == [] && (forall k :: !Starved(b.clients, b.waiting, b.db, k))
      && Handled(a.clients, a.delivered, a.db, b.clients, b.delivered)
      && (forall k :: k in a.ready ==> CaughtUp(b.clients, b.waiting, b.db, k))
      && Total(b.db) + Handed(b.delivered) == Total(a.db) + Handed(a.delivered)
    case Reprocessed =>
      && b == a.(clients := b.clients, unblocked := []) && b.clients.Keys == a.clients.Keys
      && forall c :: c in b.clients ==> b.clients[c] == a.clients[c].(queued := false)
  }

  /** Client c is in no list, the others are in their order. */
  ghost predicate Left(w: Waiting, c: ClientId, v: Waiting)
  {
    forall k :: QueueOf(v, k) == DropClient(QueueOf(w, k), c)
  }

  lemma Parts(s: Server)
    requires Inv(s)
    ensures s.Valid([]) && Full(s.db, None) && NoLost(s.clients, s.waiting, s.db, s.readyDict, None)
    ensures forall k :: k in s.readyDict <==> k in s.readyKeys
  {
    assert [] + s.readyKeys == s.readyKeys;
  }

  lemma Whole(s: Server)
    requires s.Valid([]) && Full(s.db, None) && NoLost(s.clients, s.waiting, s.db, s.readyDict, None)
    ensures Inv(s)
  {
  }

  /** What clients do. */
  method OfClient(s: Server, e: Event)
    requires Inv(s) && Enabled(s.clients, s.db, e) && (e.Connected? || e.Gone? || e.Blocks? || e.TimedOut?)
    modifies s
    ensures Inv(s) && Took(old(View(s)), e, View(s))
  {
    hide Inv, Full, NoLost, Serves, Asked, QueueOf, DropClient, Server.Valid;
    Parts(s);
    match e {
    case Connected(c) => s.AddClient(c, []);
    case Gone(c) => s.FreeClient(c, []);
    case Blocks(c, t, keys, target, wher, after) => s.BlockForKeys(c, t, keys, target, wher, after, []);
    case TimedOut(c) => s.UnblockClient(c, []);
    }
    Whole(s);
  }

  /** What happens to keys. */
  method OfKey(s: Server, e: Event)
    requires Inv(s) && Enabled(s.clients, s.db, e) && !Forgets(s.clients, s.waiting, s.db, s.readyKeys, e)
    requires e.Stored? || e.Changed? || e.Deleted? || e.StreamAdd?
    modifies s
    ensures Inv(s) && Took(old(View(s)), e, View(s))
  {
    hide Inv, Full, NoLost, Wanted, Wakes, TypeSet, NotEmpty, SameType, Server.Valid;
    Parts(s);
    match e {
    case Stored(k, o) => s.SetKey(k, o, []);
    case Changed(k, o) => s.Change(k, o, []);
    case Deleted(k) => s.DbDelete(k, []);
    case StreamAdd(k, last) => s.XAdd(k, last, []);
    }
    Whole(s);
  }

  /** An event. */
  method Step(s: Server, e: Event)
    requires Inv(s) && !Forgets(s.clients, s.waiting, s.db, s.readyKeys, e)
    modifies s
    ensures Inv(s)
    ensures if old(Enabled(s.clients, s.db, e)) then Took(old(View(s)), e, View(s)) else View(s) == old(View(s))
  {
    hide *;
    if !Enabled(s.clients, s.db, e) { return; }
    if e == Served {
      Handle(s);
    } else if e == Reprocessed {
      Reprocess(s);
    } else if e.Connected? || e.Gone? || e.Blocks? || e.TimedOut? {
      OfClient(s, e);
    } else {
      OfKey(s, e);
    }
  }

  method Handle(s: Server)
    requires Inv(s)
    modifies s
    ensures Inv(s) && Took(old(View(s)), Served, View(s))
  {
    hide Inv, Starved, Total, Handed, Handled, Full, NoLost;
    Parts(s);
    s.HandleClientsBlockedOnKeys();
    NoneLost(s);
    Whole(s);
  }

  lemma NoneLost(s: Server)
    requires forall k :: !Starved(s.clients, s.waiting, s.db, k)
    ensures NoLost(s.clients, s.waiting, s.db, s.readyDict, None)
  {
  }

  method Reprocess(s: Server)
    requires Inv(s)
    modifies s
    ensures Inv(s) && Took(old(View(s)), Reprocessed, View(s))
  {
    hide Inv, Full, NoLost, Server.Valid, LessStarved;
    Parts(s);
    ghost var cs0 := s.clients;
    var _ := s.ProcessUnblockedClients([]);
    SameTypes(cs0, s.clients, s.waiting);
    NoLostLess(cs0, s.waiting, s.clients, s.waiting, s.db, s.readyDict, None);
    Whole(s);
  }

  lemma SameTypes(cs: Clients, ds: Clients, w: Waiting)
    requires cs.Keys == ds.Keys && forall c :: c in ds ==> ds[c].btype == cs[c].btype && ds[c].keys == cs[c].keys
    ensures LessStarved(cs, w, ds, w)
  {
  }

  /** The states of a run: each follows from the one before by its event, and none of the events
      forgets a client. */
  ghost predicate Trace(ss: seq<Snap>, events: seq<Event>)
  {
    && |ss| == |events| + 1 && ss[0] == BOOT
    && forall i :: 0 <= i < |events| ==> Follows(ss[i], events[i], ss[i + 1])
  }

  ghost predicate Follows(a: Snap, e: Event, b: Snap)
  {
    && !Forgets(a.clients, a.waiting, a.db, a.ready, e)
    && if Enabled(a.clients, a.db, e) then Took(a, e, b) else b == a
  }

  /** In every run the index, the counts and the queues are in order, and no client waits for
      what is there, once the ready keys are served; up to an event that overwrites a key
      some client waits for. */
  method Run(events: seq<Event>) returns (s: Server, n: nat, ghost ss: seq<Snap>)
    ensures fresh(s) && Inv(s) && n <= |events|
    ensures (n < |events| ==> Forgets(s.clients, s.waiting, s.db, s.readyKeys, events[n]))
    ensures Trace(ss, events[..n]) && ss[n] == View(s)
    ensures n > 0 && events[n - 1] == Served ==>
            s.readyKeys == [] && forall k :: !Starved(s.clients, s.waiting, s.db, k)
  {
    hide Inv, Enabled, Forgets, Took, Trace, Starved;
    s := new Server();
    Initial(s);
    n, ss := 0, [BOOT];
    while n < |events| && !Forgets(s.clients, s.waiting, s.db, s.readyKeys, events[n])
      invariant fresh(s) && Inv(s) && n <= |events| && |ss| == n + 1
      invariant Trace(ss, events[..n]) && ss[n] == View(s)
    {
      Step(s, events[n]);
      OneMore(ss, events, n, View(s));
      ss := ss + [View(s)];
      n := n + 1;
    }
    LastServed(ss, events, n);
  }

  lemma Initial(s: Server)
    requires s.Valid([]) && NoLost(s.clients, s.waiting, s.db, s.readyDict, None) && Full(s.db, None)
    requires View(s) == BOOT
    ensures Inv(s) && Trace([BOOT], [])
  {
  }

  lemma OneMore(ss: seq<Snap>, events: seq<Event>, n: nat, a: Snap)
    requires n < |events| && Trace(ss, events[..n])
    requires !Forgets(ss[n].clients, ss[n].waiting, ss[n].db, ss[n].ready, events[n])
    requires if Enabled(ss[n].clients, ss[n].db, events[n]) then Took(ss[n], events[n], a) else a == ss[n]
    ensures Trace(ss + [a], events[..n + 1])
  {
    hide Enabled, Took, Forgets;
    assert forall i :: 0 <= i < n ==> events[..n + 1][i] == events[..n][i];
  }

  lemma LastServed(ss: seq<Snap>, events: seq<Event>, n: nat)
    requires n <= |events| && Trace(ss, events[..n])
    ensures n > 0 && events[n - 1] == Served ==>
            ss[n].ready == [] && forall k :: !Starved(ss[n].clients, ss[n].waiting, ss[n].db, k)
  {
    hide Starved, Total, Handed, Handled;
    if n > 0 { assert events[..n][n - 1] == events[n - 1]; }
  }

  /** A client waits in BLPOP for a key, SET stores a string there, SORT with STORE a list over
      it: the last event forgets the client, in this run from the empty server. */
  function ForgettingEvents(k: Key, e: Elem): seq<Event>
  {
    [Connected(0), Blocks(0, OnList, [k], None, Front, [0]), Stored(k, OtherObj), Stored(k, ListObj([e]))]
  }

  /** Where that run leaves the server: nothing is ready, and the client waits for what is there. */
  method ForgettingRun(k: Key, e: Elem) returns (s: Server)
    ensures s.Valid([]) && s.readyKeys == [] && s.db == map[k := ListObj([e])]
    ensures Starved(s.clients, s.waiting, s.db, k) && !NoLost(s.clients, s.waiting, s.db, s.readyDict, None)
  {
    hide Inv, Full, NoLost, Starved, Wanted, Trace, Server.Valid;
    ghost var ss;
    var n;
    s, n, ss := Run(ForgettingEvents(k, e));
    ForgetsLast(ss, k, e, n, s);
    Parts(s);
    s.SetKey(k, ListObj([e]), []);
    Lost(s, k);
  }

  lemma Lost(s: Server, k: Key)
    requires !NoLost(s.clients, s.waiting, s.db, s.readyDict, None) && s.db.Keys == {k}
    ensures Starved(s.clients, s.waiting, s.db, k)
  {
    hide Starved;
    forall j | Starved(s.clients, s.waiting, s.db, j) ensures j == k { OnlyThere(s, j); }
  }

  lemma OnlyThere(s: Server, j: Key)
    requires Starved(s.clients, s.waiting, s.db, j)
    ensures j in s.db
  {
  }

  lemma TraceAt(ss: seq<Snap>, events: seq<Event>, n: nat, m: nat)
    requires m < n <= |events| && Trace(ss, events[..n])
    ensures |ss| == n + 1 && ss[0] == BOOT && Follows(ss[m], events[m], ss[m + 1])
  {
    hide Follows;
    assert events[..n][m] == events[m];
  }

  lemma OneBlocks(a: Snap, k: Key, e: Elem, b: Snap)
    requires a == BOOT.(clients := map[0 := IDLE]) && Follows(a, ForgettingEvents(k, e)[1], b)
    ensures b.db == map[] && b.ready == [] && Wanted(b.clients, b.waiting, k, ListObj([e]))
  {
    var m := Node(b.clients[0].keys[k].node, 0);
    assert QueueOf(b.waiting, k) == [] + [m];
  }

  /** The client connects, blocks, and the string is stored. */
  lemma BlockedState(ss: seq<Snap>, k: Key, e: Elem, n: nat)
    requires n <= 4 && Trace(ss, ForgettingEvents(k, e)[..n])
    ensures |ss| == n + 1 && ss[0] == BOOT && (n >= 1 ==> ss[1] == BOOT.(clients := map[0 := IDLE]))
    ensures n >= 2 ==> ss[2].db == map[] && ss[2].ready == [] && Wanted(ss[2].clients, ss[2].waiting, k, ListObj([e]))
    ensures n >= 3 ==> ss[3] == ss[2].(db := map[k := OtherObj])
  {
    hide Trace, Wanted;
    var events := ForgettingEvents(k, e);
    if n == 0 { BootOnly(ss, events); }
    if n >= 1 { TraceAt(ss, events, n, 0); }
    if n >= 2 {
      TraceAt(ss, events, n, 1);
      OneBlocks(ss[1], k, e, ss[2]);
    }
    if n >= 3 { TraceAt(ss, events, n, 2); }
  }

  lemma BootOnly(ss: seq<Snap>, events: seq<Event>)
    requires Trace(ss, events[..0])
    ensures |ss| == 1 && ss[0] == BOOT
  {
  }

  lemma StringForNobody(cs: Clients, w: Waiting, k: Key)
    ensures !Wanted(cs, w, k, OtherObj)
  {
  }

  /** The run stops before its last event, and only there. */
  lemma ForgetsLast(ss: seq<Snap>, k: Key, e: Elem, n: nat, s: Server)
    requires n <= 4 && Trace(ss, ForgettingEvents(k, e)[..n]) && ss[n] == View(s)
    requires n < 4 ==> Forgets(s.clients, s.waiting, s.db, s.readyKeys, ForgettingEvents(k, e)[n])
    ensures n == 3 && s.db == map[k := OtherObj] && s.readyKeys == []
    ensures Wanted(s.clients, s.waiting, k, ListObj([e]))
  {
    hide Trace, Wanted, Took;
    BlockedState(ss, k, e, n);
    StringForNobody(s.clients, s.waiting, k);
    if n == 4 { TraceAt(ss, ForgettingEvents(k, e), n, 3); }
  }

  /** A client waits in XREAD for a key that is not there, and RENAME puts a stream there: dbAdd
      signals no stream, so this forgets the client too. */
  function RenamingEvents(k: Key): seq<Event>
  {
    [Connected(0), Blocks(0, OnStream, [k], None, Front, [0]), Stored(k, StreamObj(1, 1))]
  }

  method ForgettingRename(k: Key) returns (s: Server)
    ensures s.Valid([]) && s.readyKeys == [] && s.db == map[k := StreamObj(1, 1)]
    ensures Starved(s.clients, s.waiting, s.db, k) && !NoLost(s.clients, s.waiting, s.db, s.readyDict, None)
  {
    hide Inv, Full, NoLost, Starved, Wanted, Trace, Server.Valid;
    ghost var ss;
    var n;
    s, n, ss := Run(RenamingEvents(k));
    RenamesLast(ss, k, n, s);
    Parts(s);
    s.SetKey(k, StreamObj(1, 1), []);
    Lost(s, k);
  }

  lemma OneReads(a: Snap, k: Key, b: Snap)
    requires a == BOOT.(clients := map[0 := IDLE]) && Follows(a, RenamingEvents(k)[1], b)
    ensures b.db == map[] && b.ready == [] && Wanted(b.clients, b.waiting, k, StreamObj(1, 1))
  {
    var m := Node(b.clients[0].keys[k].node, 0);
    assert QueueOf(b.waiting, k) == [] + [m];
    assert b.clients[0].keys[k].after == 0;
  }

  lemma RenamesLast(ss: seq<Snap>, k: Key, n: nat, s: Server)
    requires n <= 3 && Trace(ss, RenamingEvents(k)[..n]) && ss[n] == View(s)
    requires n < 3 ==> Forgets(s.clients, s.waiting, s.db, s.readyKeys, RenamingEvents(k)[n])
    ensures n == 2 && s.db == map[] && s.readyKeys == [] && Wanted(s.clients, s.waiting, k, StreamObj(1, 1))
  {
    hide Trace, Wanted;
    var events := RenamingEvents(k);
    if n == 0 { BootOnly(ss, events); }
    if n >= 1 { TraceAt(ss, events, n, 0); }
    if n >= 2 {
      TraceAt(ss, events, n, 1);
      OneReads(ss[1], k, ss[2]);
    }
    if n >= 3 { TraceAt(ss, events, n, 2); }
  }
}
