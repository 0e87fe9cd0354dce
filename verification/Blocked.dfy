/** Clients blocked on keys: which client waits for which keys, and which keys are ready. */
module Blocked {
  import opened Bytes
  import opened Options

  type Elem = seq<byte>
  type ClientId = nat
  type NodeId = nat

  datatype Key = Key(db: nat, name: seq<byte>)
  datatype BType = NotBlocked | OnList | OnZset | OnStream
  datatype Where = Front | Rear

  /** A value of the keyspace, as far as serving clients looks at it: the elements of a list,
      the members of a sorted set in score order, or of a stream the last id it has given out and
      the last one that is still there. */
  datatype Obj =
    | ListObj(elems: seq<Elem>)
    | ZsetObj(elems: seq<Elem>)
    | StreamObj(last: int, top: int)
    | OtherObj

  /** A node of a key's list of waiting clients. */
  datatype Node = Node(id: NodeId, client: ClientId)

  /** What a client remembers for a key it waits for: its node, and for streams an id. */
  datatype Info = Info(node: NodeId, after: int)

  datatype Client = Client(btype: BType, keys: map<Key, Info>, target: Option<Key>, wher: Where, queued: bool)

  /** What a served client got. */
  datatype Delivery =
    | Popped(to: ClientId, key: Key, elem: Elem)
    | Moved(to: ClientId, dst: Key, elem: Elem)
    | Refused(to: ClientId)

  type Clients = map<ClientId, Client>
  type Waiting = map<Key, seq<Node>>
  type Database = map<Key, Obj>

  // ----- the two-sided index -----------------------------------------------------------------

  function QueueOf(w: Waiting, k: Key): seq<Node> { if k in w then w[k] else [] }

  ghost predicate DistinctIds(q: seq<Node>) { forall i, j :: 0 <= i < j < |q| ==> q[i].id != q[j].id }

  /** A client holds a key iff its own node is in the key's list, which is never empty. */
  ghost predicate Index(cs: Clients, w: Waiting)
  {
    && (forall c, k :: c in cs && k in cs[c].keys ==> k in w && Node(cs[c].keys[k].node, c) in w[k])
    && (forall k :: k in w ==> w[k] != [] && DistinctIds(w[k]))
    && (forall k, n :: k in w && n in w[k] ==> Holds(cs, k, n))
  }

  ghost predicate Holds(cs: Clients, k: Key, n: Node)
  {
    n.client in cs && k in cs[n.client].keys && cs[n.client].keys[k].node == n.id
  }

  /** So a client is in a list at most once, and it is there iff it holds the key. */
  lemma OnceEach(cs: Clients, w: Waiting, c: ClientId, k: Key)
    requires Index(cs, w) && c in cs
    ensures k in cs[c].keys <==> exists i :: 0 <= i < |QueueOf(w, k)| && QueueOf(w, k)[i].client == c
    ensures forall i, j :: 0 <= i < j < |QueueOf(w, k)| && QueueOf(w, k)[i].client == c ==> QueueOf(w, k)[j].client != c
  {
    var q := QueueOf(w, k);
    forall i | 0 <= i < |q| && q[i].client == c ensures k in cs[c].keys && cs[c].keys[k].node == q[i].id {
      assert q[i] in w[k] && Holds(cs, k, q[i]);
    }
    if k in cs[c].keys {
      assert Node(cs[c].keys[k].node, c) in q;
      var i :| 0 <= i < |q| && q[i] == Node(cs[c].keys[k].node, c);
      assert q[i].client == c;
    }
  }

  /** listDelNode, on the node with this id. */
  function Without(q: seq<Node>, id: NodeId): (r: seq<Node>)
  {
    if q == [] then [] else if q[0].id == id then q[1..] else [q[0]] + Without(q[1..], id)
  }

  lemma {:induction false} WithoutIs(q: seq<Node>, id: NodeId)
    requires DistinctIds(q)
    ensures DistinctIds(Without(q, id)) && forall n :: n in Without(q, id) <==> n in q && n.id != id
  {
    if q != [] {
      WithoutIs(q[1..], id);
      if q[0].id == id {
        assert forall n :: n in q[1..] ==> n.id != id;
      } else {
        var r := Without(q[1..], id);
        assert forall n :: n in r ==> n in q[1..] && n.id != q[0].id;
      }
    }
  }

  /** The lists without any node of client c. */
  function DropClient(q: seq<Node>, c: ClientId): (r: seq<Node>)
  {
    if q == [] then [] else if q[0].client == c then DropClient(q[1..], c) else [q[0]] + DropClient(q[1..], c)
  }

  lemma {:induction false} DropNone(q: seq<Node>, c: ClientId)
    requires forall n :: n in q ==> n.client != c
    ensures DropClient(q, c) == q
  {
    if q != [] { DropNone(q[1..], c); }
  }

  /** Deleting a client's own node is dropping the client. */
  lemma {:induction false} WithoutIsDrop(q: seq<Node>, c: ClientId, id: NodeId)
    requires DistinctIds(q) && forall n :: n in q ==> (n.client == c <==> n.id == id)
    ensures Without(q, id) == DropClient(q, c)
  {
    if q != [] {
      if q[0].id == id {
        assert forall n :: n in q[1..] ==> n.id != id;
        DropNone(q[1..], c);
      } else {
        WithoutIsDrop(q[1..], c, id);
      }
    }
  }

  // ----- counts ------------------------------------------------------------------------------

  function BlockedSet(cs: Clients): set<ClientId> { set c | c in cs && cs[c].btype != NotBlocked }
  function TypeSet(cs: Clients, t: BType): set<ClientId> { set c | c in cs && cs[c].btype == t }

  ghost predicate Counted(cs: Clients, all: int, byType: map<BType, int>)
  {
    all == |BlockedSet(cs)| && forall t :: t != NotBlocked ==> t in byType && byType[t] == |TypeSet(cs, t)|
  }

  /** Changing one client moves it between the sets of two types. */
  lemma TypeSetUpdate(cs: Clients, c: ClientId, d: Client, t: BType)
    requires c in cs && cs[c].btype != d.btype
    ensures |TypeSet(cs[c := d], t)|
            == |TypeSet(cs, t)| + (if t == d.btype then 1 else 0) - (if t == cs[c].btype then 1 else 0)
  {
    var a, b := TypeSet(cs, t), TypeSet(cs[c := d], t);
    if t == d.btype {
      assert b == a + {c};
    } else if t == cs[c].btype {
      assert a == b + {c};
    } else {
      assert a == b;
    }
  }

  lemma BlockedMore(cs: Clients, c: ClientId, d: Client)
    requires c in cs && cs[c].btype == NotBlocked && d.btype != NotBlocked
    ensures |BlockedSet(cs[c := d])| == |BlockedSet(cs)| + 1
  {
    assert BlockedSet(cs[c := d]) == BlockedSet(cs) + {c};
  }

  lemma BlockedLess(cs: Clients, c: ClientId, d: Client)
    requires c in cs && cs[c].btype != NotBlocked && d.btype == NotBlocked
    ensures |BlockedSet(cs)| == |BlockedSet(cs[c := d])| + 1
  {
    assert BlockedSet(cs) == BlockedSet(cs[c := d]) + {c};
  }

  /** A client that does not wait counts nowhere. */
  lemma CountIdle(cs: Clients, ds: Clients, c: ClientId, all: int, byType: map<BType, int>)
    requires Counted(cs, all, byType) && ds - {c} == cs - {c}
    requires (c in cs ==> cs[c].btype == NotBlocked) && (c in ds ==> ds[c].btype == NotBlocked)
    ensures Counted(ds, all, byType)
  {
    forall b | b != c ensures (b in ds <==> b in cs) && (b in ds ==> ds[b] == cs[b]) {
      assert b in ds <==> b in ds - {c};
      assert b in cs <==> b in cs - {c};
      if b in ds { assert (ds - {c})[b] == (cs - {c})[b]; }
    }
    assert BlockedSet(ds) == BlockedSet(cs);
    forall t | t != NotBlocked ensures TypeSet(ds, t) == TypeSet(cs, t) { }
  }

  lemma CountBlock(cs: Clients, c: ClientId, d: Client, all: int, byType: map<BType, int>)
    requires c in cs && cs[c].btype == NotBlocked && d.btype != NotBlocked && Counted(cs, all, byType)
    ensures d.btype in byType && Counted(cs[c := d], all + 1, byType[d.btype := byType[d.btype] + 1])
  {
    hide TypeSet, BlockedSet;
    BlockedMore(cs, c, d);
    forall t { TypeSetUpdate(cs, c, d, t); }
  }

  lemma CountUnblock(cs: Clients, c: ClientId, d: Client, all: int, byType: map<BType, int>)
    requires c in cs && cs[c].btype != NotBlocked && d.btype == NotBlocked && Counted(cs, all, byType)
    ensures cs[c].btype in byType && Counted(cs[c := d], all - 1, byType[cs[c].btype := byType[cs[c].btype] - 1])
    ensures |BlockedSet(cs[c := d])| < |BlockedSet(cs)|
  {
    hide TypeSet, BlockedSet;
    BlockedLess(cs, c, d);
    forall t { TypeSetUpdate(cs, c, d, t); }
  }

  lemma CountSame(cs: Clients, c: ClientId, d: Client, all: int, byType: map<BType, int>)
    requires c in cs && cs[c].btype == d.btype && Counted(cs, all, byType)
    ensures Counted(cs[c := d], all, byType) && BlockedSet(cs[c := d]) == BlockedSet(cs)
  {
    assert BlockedSet(cs[c := d]) == BlockedSet(cs);
    forall t ensures TypeSet(cs[c := d], t) == TypeSet(cs, t) {
    }
  }

  // ----- ready keys -------------------------------------------------------------------------

  /** A key is in the dictionary iff it is queued, among the new entries and those of the
      round in progress; and it is queued once. */
  ghost predicate ReadyOk(dict: set<Key>, ready: seq<Key>, round: seq<Key>)
  {
    var q := round + ready;
    (forall k :: k in dict <==> k in q) && forall i, j :: 0 <= i < j < |q| ==> q[i] != q[j]
  }

  /** Somebody waits for k and could be served from what k holds. */
  ghost predicate Starved(cs: Clients, w: Waiting, db: Database, k: Key)
  {
    k in db && exists n :: n in QueueOf(w, k) && n.client in cs && WaitsFor(cs[n.client], k, db[k])
  }

  /** There is something in o for a client that waits for this type, in a stream behind this id. */
  predicate Serves(o: Obj, t: BType, after: int)
  {
    (o.ListObj? && t == OnList) || (o.ZsetObj? && t == OnZset) || (o.StreamObj? && t == OnStream && after < o.top)
  }

  predicate WaitsFor(cl: Client, k: Key, o: Obj) { k in cl.keys && Serves(o, cl.btype, cl.keys[k].after) }

  /** Whoever waits for entries of the stream k waits for ids it has not given out. */
  ghost predicate CaughtUp(cs: Clients, w: Waiting, db: Database, k: Key)
  {
    k in db && db[k].StreamObj? ==>
      forall n :: n in QueueOf(w, k) && n.client in cs && cs[n.client].btype == OnStream && k in cs[n.client].keys ==>
        cs[n.client].keys[k].after >= db[k].last
  }

  // ----- all elements -------------------------------------------------------------------------

  function Elems(o: Obj): multiset<Elem> { if o.ListObj? || o.ZsetObj? then multiset(o.elems) else multiset{} }

  ghost function Total(db: Database): multiset<Elem>
    decreases |db|
  {
    if db == map[] then multiset{} else
    var k :| k in db;
    Elems(db[k]) + Total(db - {k})
  }

  lemma {:induction false} TotalRemove(db: Database, k: Key)
    requires k in db
    ensures Total(db) == Elems(db[k]) + Total(db - {k})
    decreases |db|
  {
    hide Elems;
    var j :| j in db && Total(db) == Elems(db[j]) + Total(db - {j});
    if j != k {
      TotalRemove(db - {j}, k);
      TotalRemove(db - {k}, j);
      assert db - {j} - {k} == db - {k} - {j};
    }
  }

  lemma TotalUpdate(db: Database, k: Key, o: Obj)
    ensures Total(db[k := o]) + (if k in db then Elems(db[k]) else multiset{}) == Total(db) + Elems(o)
  {
    hide Elems, Total;
    TotalRemove(db[k := o], k);
    assert db[k := o] - {k} == db - {k};
    if k in db { TotalRemove(db, k); } else { assert db - {k} == db; }
  }

  function Handed(ds: seq<Delivery>): multiset<Elem>
  {
    if ds == [] then multiset{} else
    Handed(ds[..|ds| - 1]) + if ds[|ds| - 1].Popped? then multiset{ds[|ds| - 1].elem} else multiset{}
  }

  lemma HandedMore(ds: seq<Delivery>, d: Delivery)
    ensures Handed(ds + [d]) == Handed(ds) + if d.Popped? then multiset{d.elem} else multiset{}
  {
    assert (ds + [d])[..|ds|] == ds;
  }

  // ----- the index, one entry at a time ------------------------------------------------------------

  ghost predicate NodesBelow(w: Waiting, next: NodeId) { forall k, n :: k in w && n in w[k] ==> n.id < next }

  /** Client c's record with other keys. */
  function WithKeys(cs: Clients, c: ClientId, keys: map<Key, Info>): Clients
    requires c in cs
  {
    cs[c := cs[c].(keys := keys)]
  }

  lemma IndexAdd(cs: Clients, w: Waiting, c: ClientId, k: Key, info: Info)
    requires Index(cs, w) && c in cs && k !in cs[c].keys && NodesBelow(w, info.node)
    ensures Index(WithKeys(cs, c, cs[c].keys[k := info]), w[k := QueueOf(w, k) + [Node(info.node, c)]])
    ensures NodesBelow(w[k := QueueOf(w, k) + [Node(info.node, c)]], info.node + 1)
  {
    var n := Node(info.node, c);
    var ds, v := WithKeys(cs, c, cs[c].keys[k := info]), w[k := QueueOf(w, k) + [n]];
    assert n in v[k];
    forall b, j | b in ds && j in ds[b].keys ensures j in v && Node(ds[b].keys[j].node, b) in v[j] {
      if !(b == c && j == k) { assert j in cs[b].keys; }
    }
    forall j, m | j in v && m in v[j] ensures Holds(ds, j, m) {
      if !(j == k && m == n) { assert j in w && m in w[j] && Holds(cs, j, m); }
    }
  }

  /** The key's list without one client's node; an empty list leaves the dictionary. */
  function Removed(w: Waiting, k: Key, id: NodeId): Waiting
    requires k in w
  {
    var q := Without(w[k], id);
    if q == [] then w - {k} else w[k := q]
  }

  /** In the list of a key, a client's nodes are the one it remembers. */
  lemma OwnNode(cs: Clients, w: Waiting, c: ClientId, k: Key)
    requires Index(cs, w) && c in cs && k in cs[c].keys
    ensures k in w && DistinctIds(w[k]) && Node(cs[c].keys[k].node, c) in w[k]
    ensures forall n :: n in w[k] ==> (n.client == c <==> n.id == cs[c].keys[k].node)
  {
    var id := cs[c].keys[k].node;
    forall n | n in w[k] ensures n.client == c <==> n.id == id {
      assert Holds(cs, k, n);
      if n.id == id { SameNode(w[k], n, Node(id, c)); }
    }
  }

  lemma RemovedQueues(w: Waiting, k: Key, c: ClientId, id: NodeId)
    requires k in w && DistinctIds(w[k]) && forall n :: n in w[k] ==> (n.client == c <==> n.id == id)
    ensures var v := Removed(w, k, id);
            && QueueOf(v, k) == DropClient(w[k], c) && (forall j :: j != k ==> QueueOf(v, j) == QueueOf(w, j))
            && (k in v ==> v[k] != [] && DistinctIds(v[k])) && (forall j :: j in v ==> j in w)
            && (forall j :: j != k && j in w ==> j in v)
            && (forall n :: n in QueueOf(v, k) <==> n in w[k] && n.client != c)
  {
    WithoutIs(w[k], id);
    WithoutIsDrop(w[k], c, id);
  }

  lemma {:induction false} IndexRemove(cs: Clients, w: Waiting, c: ClientId, k: Key)
    requires Index(cs, w) && c in cs && k in cs[c].keys
    ensures k in w && Index(WithKeys(cs, c, cs[c].keys - {k}), Removed(w, k, cs[c].keys[k].node))
    ensures QueueOf(Removed(w, k, cs[c].keys[k].node), k) == DropClient(w[k], c)
    ensures forall j :: j != k ==> QueueOf(Removed(w, k, cs[c].keys[k].node), j) == QueueOf(w, j)
  {
    var id := cs[c].keys[k].node;
    OwnNode(cs, w, c, k);
    RemovedQueues(w, k, c, id);
    hide Removed, Without, DropClient, DistinctIds;
    var ds, v := WithKeys(cs, c, cs[c].keys - {k}), Removed(w, k, id);
    forall j | j in v ensures v[j] != [] && DistinctIds(v[j]) {
      if j != k { assert QueueOf(v, j) == w[j]; }
    }
    forall j, m | j in v && m in v[j] ensures Holds(ds, j, m) {
      assert m in QueueOf(v, j) && m in w[j] && Holds(cs, j, m);
    }
    forall b, j | b in ds && j in ds[b].keys ensures j in v && Node(ds[b].keys[j].node, b) in v[j] {
      var m := Node(cs[b].keys[j].node, b);
      assert j in cs[b].keys && m in w[j];
      assert m in QueueOf(v, j);
    }
  }

  lemma SameNode(q: seq<Node>, m: Node, n: Node)
    requires DistinctIds(q) && m in q && n in q && m.id == n.id
    ensures m == n
  {
    var i :| 0 <= i < |q| && q[i] == m;
    var j :| 0 <= j < |q| && q[j] == n;
  }

  lemma {:induction false} DropKeeps(q: seq<Node>, c: ClientId)
    ensures forall n :: n in DropClient(q, c) <==> n in q && n.client != c
  {
    if q != [] { DropKeeps(q[1..], c); }
  }

  // ----- the server ----------------------------------------------------------------------------------

  ghost predicate Typed(cs: Clients) { forall c :: c in cs ==> (cs[c].btype == NotBlocked <==> cs[c].keys == map[]) }

  /** The clients queued for reprocessing are those flagged so, each once. */
  ghost predicate Queued(cs: Clients, unblocked: seq<ClientId>)
  {
    && (forall c :: c in cs && cs[c].queued <==> c in unblocked)
    && forall i, j :: 0 <= i < j < |unblocked| ==> unblocked[i] != unblocked[j]
  }

  const IDLE := Client(NotBlocked, map[], None, Front, false)

  /** A change in place: a stream may lose entries, and XADD is an event of its own. */
  predicate SameType(a: Obj, b: Obj)
  {
    && a.ListObj? == b.ListObj? && a.ZsetObj? == b.ZsetObj?
    && a.StreamObj? == b.StreamObj? && (a.StreamObj? ==> b.top <= a.top)
  }

  predicate NotEmpty(o: Obj) { (o.ListObj? || o.ZsetObj? ==> o.elems != []) && (o.StreamObj? ==> o.top <= o.last) }

  /** What a client remembers that asked for the first n keys, with these ids for streams;
      a key's first mention counts. */
  ghost predicate Asked(m: map<Key, Info>, keys: seq<Key>, after: seq<int>, n: nat)
    requires n <= |keys| == |after|
  {
    && (forall k :: k in m <==> k in keys[..n])
    && forall j :: 0 <= j < n && keys[j] !in keys[..j] ==> keys[j] in m && m[keys[j]].after == after[j]
  }

  lemma AskedNone(m: map<Key, Info>, keys: seq<Key>, after: seq<int>)
    requires m == map[] && |keys| == |after|
    ensures Asked(m, keys, after, 0)
  {
  }

  lemma AskedMore(m: map<Key, Info>, keys: seq<Key>, after: seq<int>, n: nat, node: NodeId)
    requires n < |keys| == |after| && Asked(m, keys, after, n)
    ensures Asked(if keys[n] in m then m else m[keys[n] := Info(node, after[n])], keys, after, n + 1)
  {
    assert keys[..n + 1] == keys[..n] + [keys[n]];
    assert forall j :: 0 <= j < n ==> keys[j] in keys[..n];
  }

  lemma AskedAll(m: map<Key, Info>, keys: seq<Key>, after: seq<int>)
    requires |keys| == |after| && Asked(m, keys, after, |keys|)
    ensures m.Keys == set k | k in keys
    ensures (keys != [] ==> m != map[])
  {
    assert keys[..|keys|] == keys;
    if keys != [] { assert keys[0] in m; }
  }

  /** A new value of these types makes its key ready. */
  predicate Wakes(o: Obj) { o.ListObj? || o.ZsetObj? }

  /** A client waits for k that o could serve. */
  predicate Wanted(cs: Clients, w: Waiting, k: Key, o: Obj)
  {
    exists n :: n in QueueOf(w, k) && n.client in cs && WaitsFor(cs[n.client], k, o)
  }

  function RemoveId(u: seq<ClientId>, c: ClientId): seq<ClientId>
  {
    if u == [] then [] else if u[0] == c then u[1..] else [u[0]] + RemoveId(u[1..], c)
  }

  class Server {
    var clients: Clients
    var waiting: Waiting            // db->blocking_keys
    var readyDict: set<Key>         // db->ready_keys
    var readyKeys: seq<Key>         // server.ready_keys
    var unblocked: seq<ClientId>    // server.unblocked_clients
    var blockedClients: int
    var blockedByType: map<BType, int>
    var nextNode: NodeId
    var db: Database
    ghost var delivered: seq<Delivery>

    /** `round` are the entries that handleClientsBlockedOnKeys has taken and not yet served. */
    ghost predicate Valid(round: seq<Key>)
      reads this`clients, this`waiting, this`readyDict, this`readyKeys, this`unblocked, this`blockedClients
      reads this`blockedByType, this`nextNode
    {
      && Index(clients, waiting) && NodesBelow(waiting, nextNode) && Typed(clients)
      && Counted(clients, blockedClients, blockedByType)
      && ReadyOk(readyDict, readyKeys, round) && Queued(clients, unblocked)
    }

    constructor ()
      ensures Valid([]) && NoLost(clients, waiting, db, readyDict, None) && Full(db, None)
      ensures clients == map[] && waiting == map[] && db == map[] && readyKeys == [] && unblocked == []
      ensures delivered == []
    {
      clients, waiting, readyDict, readyKeys, unblocked := map[], map[], {}, [], [];
      blockedClients, blockedByType := 0, map[OnList := 0, OnZset := 0, OnStream := 0];
      nextNode, db, delivered := 0, map[], [];
    }

    lemma Parts(round: seq<Key>)
      requires Valid(round)
      ensures Index(clients, waiting) && NodesBelow(waiting, nextNode) && Typed(clients)
      ensures Counted(clients, blockedClients, blockedByType) && ReadyOk(readyDict, readyKeys, round)
      ensures Queued(clients, unblocked)
    {
    }

    lemma Whole(round: seq<Key>)
      requires Index(clients, waiting) && NodesBelow(waiting, nextNode) && Typed(clients)
      requires Counted(clients, blockedClients, blockedByType) && ReadyOk(readyDict, readyKeys, round)
      requires Queued(clients, unblocked)
      ensures Valid(round)
    {
    }

    /** Client c is at the tail of the lists of the keys it holds. */
    ghost predicate Joined(c: ClientId, w0: Waiting)
      reads this`clients, this`waiting
    {
      c in clients && forall k ::
        QueueOf(waiting, k) == QueueOf(w0, k) + if k in clients[c].keys then [Node(clients[c].keys[k].node, c)] else []
    }

    /** A turn of the loop of blockForKeys. */
    method JoinKey(c: ClientId, k: Key, after: int, ghost w0: Waiting)
      requires c in clients && k !in clients[c].keys && Index(clients, waiting) && NodesBelow(waiting, nextNode)
      requires Joined(c, w0)
      modifies this`clients, this`waiting, this`nextNode
      ensures clients == WithKeys(old(clients), c, old(clients)[c].keys[k := Info(old(nextNode), after)])
      ensures Index(clients, waiting) && NodesBelow(waiting, nextNode) && Joined(c, w0)
    {
      hide Index, NodesBelow;
      var info := Info(nextNode, after);
      IndexAdd(clients, waiting, c, k, info);
      clients := WithKeys(clients, c, clients[c].keys[k := info]);
      waiting := waiting[k := QueueOf(waiting, k) + [Node(nextNode, c)]];
      nextNode := nextNode + 1;
    }

    /** The loop of blockForKeys. */
    method JoinKeys(c: ClientId, keys: seq<Key>, after: seq<int>)
      requires c in clients && clients[c].keys == map[] && Index(clients, waiting) && NodesBelow(waiting, nextNode)
      requires |after| == |keys|
      modifies this`clients, this`waiting, this`nextNode
      ensures Index(clients, waiting) && NodesBelow(waiting, nextNode) && Joined(c, old(waiting))
      ensures clients.Keys == old(clients).Keys && forall b :: b in clients && b != c ==> clients[b] == old(clients)[b]
      ensures clients[c] == old(clients)[c].(keys := clients[c].keys) && Asked(clients[c].keys, keys, after, |keys|)
    {
      hide Index, NodesBelow, Joined, Asked;
      ghost var cs0 := clients;
      JoinedNone(c, waiting);
      AskedNone(clients[c].keys, keys, after);
      var j := 0;
      while j < |keys|
        invariant j <= |keys| && clients.Keys == cs0.Keys && Index(clients, waiting) && NodesBelow(waiting, nextNode)
        invariant clients[c] == cs0[c].(keys := clients[c].keys) && Asked(clients[c].keys, keys, after, j)
        invariant forall b :: b in clients && b != c ==> clients[b] == cs0[b]
        invariant Joined(c, old(waiting))
      {
        AskedMore(clients[c].keys, keys, after, j, nextNode);
        if keys[j] !in clients[c].keys {
          JoinKey(c, keys[j], after[j], old(waiting));
        }
        j := j + 1;
      }
    }

    lemma JoinedNone(c: ClientId, w0: Waiting)
      requires c in clients && clients[c].keys == map[] && w0 == waiting
      ensures Joined(c, w0)
    {
    }

    /** blockForKeys: c joins the list of every key; a key named twice is joined once. */
    method BlockForKeys(c: ClientId, t: BType, keys: seq<Key>, target: Option<Key>, wher: Where, after: seq<int>,
                        ghost round: seq<Key>)
      requires Valid(round) && c in clients && clients[c].btype == NotBlocked && t != NotBlocked && keys != []
      requires |after| == |keys|
      modifies this`clients, this`waiting, this`nextNode, this`blockedClients, this`blockedByType
      ensures Valid(round) && clients.Keys == old(clients).Keys
      ensures clients[c] == old(clients)[c].(btype := t, keys := clients[c].keys, target := target, wher := wher)
      ensures clients[c].keys.Keys == (set k | k in keys) && Asked(clients[c].keys, keys, after, |keys|)
      ensures forall b :: b in clients && b != c ==> clients[b] == old(clients)[b]
      ensures forall k :: QueueOf(waiting, k) == QueueOf(old(waiting), k) +
                if k in keys then [Node(clients[c].keys[k].node, c)] else []
      ensures NoLost(old(clients), old(waiting), db, readyDict, None) &&
                (forall j :: 0 <= j < |keys| && keys[j] in db ==> !Serves(db[keys[j]], t, after[j])) ==>
                NoLost(clients, waiting, db, readyDict, None)
    {
      hide Index, NodesBelow, Counted, Queued, ReadyOk, QueueOf, NoLost, Serves, Asked;
      ghost var cs0 := clients;
      clients := clients[c := clients[c].(target := target, wher := wher)];
      IndexSame(cs0, waiting, c, clients[c]);
      JoinKeys(c, keys, after);
      AskedAll(clients[c].keys, keys, after);
      BlockClient(c, t, cs0);
      NoLostBlock(cs0, old(waiting), clients, waiting, db, readyDict, c, keys, after);
    }

    /** A turn of the loop of unblockClientWaitingData. */
    method LeaveKey(c: ClientId, k: Key, todo: map<Key, Info>)
      requires c in clients && k in todo && Index(WithKeys(clients, c, todo), waiting) && NodesBelow(waiting, nextNode)
      modifies this`waiting
      ensures Index(WithKeys(clients, c, todo - {k}), waiting) && NodesBelow(waiting, nextNode)
      ensures QueueOf(waiting, k) == DropClient(QueueOf(old(waiting), k), c)
      ensures forall j :: j != k ==> QueueOf(waiting, j) == QueueOf(old(waiting), j)
    {
      hide Index, NodesBelow, DropClient, Removed;
      IndexRemove(WithKeys(clients, c, todo), waiting, c, k);
      assert WithKeys(WithKeys(clients, c, todo), c, todo - {k}) == WithKeys(clients, c, todo - {k});
      BelowRemoved(waiting, k, todo[k].node, nextNode);
      waiting := Removed(waiting, k, todo[k].node);
    }

    /** unblockClientWaitingData: the client's own node leaves the list of every key it holds,
        and lists that become empty leave the dictionary. */
    method UnblockClientWaitingData(c: ClientId)
      requires c in clients && Index(clients, waiting) && NodesBelow(waiting, nextNode)
      modifies this`clients, this`waiting
      ensures Index(clients, waiting) && NodesBelow(waiting, nextNode)
      ensures clients == old(clients)[c := old(clients)[c].(keys := map[], target := None)]
      ensures forall k :: QueueOf(waiting, k) == DropClient(QueueOf(old(waiting), k), c)
    {
      hide Index, NodesBelow, DropClient, QueueOf;
      ghost var w0 := waiting;
      ghost var cs0 := clients;
      var todo := clients[c].keys;
      assert clients == WithKeys(clients, c, todo);
      while todo != map[]
        invariant clients == cs0
        invariant todo.Keys <= clients[c].keys.Keys
        invariant Index(WithKeys(clients, c, todo), waiting) && NodesBelow(waiting, nextNode)
        invariant forall k :: QueueOf(waiting, k) == if k in todo || k !in clients[c].keys then QueueOf(w0, k)
                  else DropClient(QueueOf(w0, k), c)
        decreases |todo|
      {
        var k :| k in todo;
        LeaveKey(c, k, todo);
        todo := todo - {k};
      }
      forall k ensures QueueOf(waiting, k) == DropClient(QueueOf(w0, k), c) {
        if k !in clients[c].keys {
          NotInQueue(old(clients), w0, c, k);
          DropNone(QueueOf(w0, k), c);
        }
      }
      ghost var done := clients[c].(keys := map[], target := None);
      IndexSame(WithKeys(clients, c, map[]), waiting, c, done);
      assert WithKeys(clients, c, map[])[c := done] == clients[c := done];
      clients := clients[c := clients[c].(keys := map[], target := None)];
    }

    /** unblockClient: in no list any more, counted out, and queued for reprocessing. */
    method UnblockClient(c: ClientId, ghost round: seq<Key>)
      requires Valid(round) && c in clients && clients[c].btype != NotBlocked
      modifies this`clients, this`waiting, this`unblocked, this`blockedClients, this`blockedByType
      ensures Valid(round)
      ensures clients == old(clients)[c := old(clients)[c].(btype := NotBlocked, keys := map[],
                                                     target := None, queued := true)]
      ensures forall k :: QueueOf(waiting, k) == DropClient(QueueOf(old(waiting), k), c)
      ensures |BlockedSet(clients)| < old(|BlockedSet(clients)|)
      ensures NoLost(old(clients), old(waiting), db, readyDict, None) ==> NoLost(clients, waiting, db, readyDict, None)
    {
      hide *;
      Parts(round);
      ghost var cs0, w0 := clients, waiting;
      UnblockClientWaitingData(c);
      var t := clients[c].btype;
      ghost var done := clients[c].(btype := NotBlocked, queued := true);
      CountUnblock(cs0, c, done, blockedClients, blockedByType);
      assert cs0[c := done] == clients[c := done];
      blockedClients := blockedClients - 1;
      blockedByType := blockedByType[t := blockedByType[t] - 1];
      IndexSame(clients, waiting, c, clients[c].(btype := NotBlocked));
      clients := clients[c := clients[c].(btype := NotBlocked)];
      SameQueued(cs0, clients, unblocked);
      QueueClientForReprocessing(c);
      assert clients == cs0[c := done];
      TypedUpdate(cs0, c, done);
      Whole(round);
      LessAfterUnblock(cs0, w0, clients, waiting, c);
      if NoLost(cs0, w0, db, readyDict, None) { NoLostLess(cs0, w0, clients, waiting, db, readyDict, None); }
    }

    /** queueClientForReprocessing: unless it is queued already. */
    method QueueClientForReprocessing(c: ClientId)
      requires c in clients && Index(clients, waiting) && Queued(clients, unblocked)
      modifies this`clients, this`unblocked
      ensures Index(clients, waiting) && Queued(clients, unblocked)
      ensures clients == old(clients)[c := old(clients)[c].(queued := true)]
      ensures unblocked == old(unblocked) + if old(clients)[c].queued then [] else [c]
    {
      hide Index;
      IndexSame(clients, waiting, c, clients[c].(queued := true));
      if !clients[c].queued {
        clients := clients[c := clients[c].(queued := true)];
        unblocked := unblocked + [c];
      }
    }

    /** signalKeyAsReady: the key is queued, unless nobody waits for it or it is queued already. */
    method SignalKeyAsReady(k: Key, ghost round: seq<Key>)
      requires Valid(round)
      modifies this`readyDict, this`readyKeys
      ensures Valid(round)
      ensures readyDict == old(readyDict) + if k in waiting then {k} else {}
      ensures readyKeys == old(readyKeys) + if k in waiting && k !in old(readyDict) then [k] else []
    {
      hide *;
      Parts(round);
      if k !in waiting { return; }
      if k in readyDict { return; }
      ReadyMore(readyDict, readyKeys, round, k);
      readyKeys := readyKeys + [k];
      readyDict := readyDict + {k};
      Whole(round);
    }

    /** dbAdd: a new list or sorted set makes its key ready, a stream does not. */
    method DbAdd(k: Key, o: Obj, ghost round: seq<Key>, ghost but: Option<Key>)
      requires Valid(round) && k !in db && NoLost(clients, waiting, db, readyDict, but)
      modifies this`readyDict, this`readyKeys, this`db
      ensures Valid(round) && db == old(db)[k := o]
      ensures NoLost(clients, waiting, db, readyDict, but) <==>
              Wakes(o) || Some(k) == but || k in old(readyDict) || !Wanted(clients, waiting, k, o)
      ensures readyDict == old(readyDict) + if Wakes(o) && k in waiting then {k} else {}
      ensures readyKeys == old(readyKeys) + if Wakes(o) && k in waiting && k !in old(readyDict) then [k] else []
    {
      hide Index, NodesBelow, Counted, Queued, ReadyOk, Typed, NoLost, WaitsFor;
      ghost var db0, dict0 := db, readyDict;
      db := db[k := o];
      if Wakes(o) {
        SignalKeyAsReady(k, round);
      }
      NoLostMore(clients, waiting, db0, dict0, readyDict, but);
      Overwritten(clients, waiting, db0, readyDict, but, k, o);
    }

    /** A client connects. */
    method AddClient(c: ClientId, ghost round: seq<Key>)
      requires Valid(round) && c !in clients
      modifies this`clients
      ensures Valid(round) && clients == old(clients)[c := IDLE]
      ensures NoLost(old(clients), waiting, db, readyDict, None) ==> NoLost(clients, waiting, db, readyDict, None)
    {
      hide Index, NodesBelow, Counted, Queued, ReadyOk, Typed, NoLost;
      ghost var cs0 := clients;
      clients := clients[c := IDLE];
      AddedClient(cs0, waiting, c, blockedClients, blockedByType, unblocked);
      if NoLost(cs0, waiting, db, readyDict, None) { NoLostLess(cs0, waiting, clients, waiting, db, readyDict, None); }
    }

    /** freeClient, of a client in whatever state: it leaves all lists and both queues. */
    method FreeClient(c: ClientId, ghost round: seq<Key>)
      requires Valid(round) && c in clients
      modifies this`clients, this`waiting, this`unblocked, this`blockedClients, this`blockedByType
      ensures Valid(round) && clients == old(clients) - {c}
      ensures forall k :: QueueOf(waiting, k) == DropClient(QueueOf(old(waiting), k), c)
      ensures forall b :: b in unblocked <==> b in old(unblocked) && b != c
      ensures NoLost(old(clients), old(waiting), db, readyDict, None) ==> NoLost(clients, waiting, db, readyDict, None)
    {
      hide *;
      ghost var cs0, w0, u0 := clients, waiting, unblocked;
      Parts(round);
      if clients[c].btype != NotBlocked {
        UnblockClient(c, round);
      } else {
        NotWaiting(round, c);
      }
      Parts(round);
      ghost var cs1, u1 := clients, unblocked;
      GoneClient(cs1, waiting, c, blockedClients, blockedByType, unblocked);
      StillQueued(cs0, u0, cs1, u1, c);
      if clients[c].queued {
        unblocked := RemoveId(unblocked, c);
      }
      clients := clients - {c};
      Whole(round);
      if NoLost(cs0, w0, db, readyDict, None) { NoLostLess(cs1, waiting, clients, waiting, db, readyDict, None); }
    }

    lemma NotWaiting(round: seq<Key>, c: ClientId)
      requires Valid(round) && c in clients && clients[c].btype == NotBlocked
      ensures forall k :: QueueOf(waiting, k) == DropClient(QueueOf(waiting, k), c)
    {
      hide Counted, Queued, ReadyOk, NodesBelow, Index;
      forall k ensures QueueOf(waiting, k) == DropClient(QueueOf(waiting, k), c) {
        NotInQueue(clients, waiting, c, k);
        DropNone(QueueOf(waiting, k), c);
      }
    }

    /** dbDelete */
    method DbDelete(k: Key, ghost round: seq<Key>)
      requires Valid(round) && Full(db, None)
      modifies this`db
      ensures Valid(round) && db == old(db) - {k} && Full(db, None)
      ensures NoLost(clients, waiting, old(db), readyDict, None) ==> NoLost(clients, waiting, db, readyDict, None)
    {
      hide Index, NodesBelow, Counted, Queued, ReadyOk, Typed, NoLost;
      ghost var db0 := db;
      db := db - {k};
      if NoLost(clients, waiting, db0, readyDict, None) { NoLostAt(clients, waiting, db0, db, readyDict, None, k); }
    }

    /** A value changes in place: a push to a list that is there, a pop that leaves something. */
    method Change(k: Key, o: Obj, ghost round: seq<Key>)
      requires Valid(round) && Full(db, None) && k in db && SameType(db[k], o) && NotEmpty(o)
      modifies this`db
      ensures Valid(round) && db == old(db)[k := o] && Full(db, None)
      ensures NoLost(clients, waiting, old(db), readyDict, None) ==> NoLost(clients, waiting, db, readyDict, None)
    {
      hide Index, NodesBelow, Counted, Queued, ReadyOk, Typed, NoLost;
      ghost var db0 := db;
      db := db[k := o];
      if NoLost(clients, waiting, db0, readyDict, None) { NoLostAt(clients, waiting, db0, db, readyDict, None, k); }
    }

    /** setKey: a new key is added, an old one overwritten. Overwriting signals nothing, nor does
        adding a stream, so they forget a client iff the new value could serve one and the key is
        not queued already. */
    method SetKey(k: Key, o: Obj, ghost round: seq<Key>)
      requires Valid(round) && Full(db, None) && NotEmpty(o) && NoLost(clients, waiting, db, readyDict, None)
      modifies this`readyDict, this`readyKeys, this`db
      ensures Valid(round) && db == old(db)[k := o] && Full(db, None) && old(readyDict) <= readyDict
      ensures readyKeys == old(readyKeys) +
                if k !in old(db) && Wakes(o) && k in waiting && k !in old(readyDict) then [k] else []
      ensures (k in old(db) || !Wakes(o) ==> readyDict == old(readyDict))
      ensures NoLost(clients, waiting, db, readyDict, None) <==>
              !((k in old(db) || !Wakes(o)) && k !in old(readyDict) && Wanted(clients, waiting, k, o))
    {
      hide Index, NodesBelow, Counted, Queued, ReadyOk, Typed, NoLost;
      ghost var db0 := db;
      if k !in db {
        DbAdd(k, o, round, None);
      } else {
        db := db[k := o];
        Overwritten(clients, waiting, db0, readyDict, None, k, o);
      }
      FullUpdate(db0, None, k, o);
    }

    lemma Counts(round: seq<Key>, t: BType)
      requires Valid(round) && t != NotBlocked
      ensures t in blockedByType && (blockedByType[t] != 0 <==> TypeSet(clients, t) != {})
    {
      hide Index, NodesBelow, Queued, ReadyOk, Typed;
    }

    /** xaddCommand: a new last id; whoever waits for a stream is to be looked at. */
    method XAdd(k: Key, last: int, ghost round: seq<Key>)
      requires Valid(round) && Full(db, None) && (k in db ==> db[k].StreamObj?)
      requires NoLost(clients, waiting, db, readyDict, None)
      modifies this`readyDict, this`readyKeys, this`db
      ensures Valid(round) && db == old(db)[k := StreamObj(last, last)] && Full(db, None)
      ensures NoLost(clients, waiting, db, readyDict, None)
      ensures readyKeys == old(readyKeys) +
                if TypeSet(clients, OnStream) != {} && k in waiting && k !in old(readyDict) then [k] else []
    {
      hide Index, NodesBelow, Counted, Queued, ReadyOk, Typed, NoLost;
      ghost var db0, dict0 := db, readyDict;
      SetKey(k, StreamObj(last, last), round);
      Counts(round, OnStream);
      if OnStream in blockedByType && blockedByType[OnStream] != 0 {
        SignalKeyAsReady(k, round);
      }
      NoLostMore(clients, waiting, db0, dict0, readyDict, None);
      Overwritten(clients, waiting, db0, readyDict, None, k, StreamObj(last, last));
      if Wanted(clients, waiting, k, StreamObj(last, last)) {
        ghost var n :| n in QueueOf(waiting, k) && n.client in clients
                       && WaitsFor(clients[n.client], k, StreamObj(last, last));
        assert n.client in TypeSet(clients, OnStream);
      }
    }

    /** serveClientBlockedOnList: hands the element to the client, or moves it to the front of
        the client's target. False if the target is something else than a list. */
    method ServeOnList(c: ClientId, key: Key, dst: Option<Key>, value: Elem, ghost round: seq<Key>) returns (ok: bool)
      requires Valid(round) && key in db && db[key].ListObj? && NoLost(clients, waiting, db, readyDict, Some(key))
      modifies this`readyDict, this`readyKeys, this`db, this`delivered
      ensures Valid(round) && NoLost(clients, waiting, db, readyDict, Some(key)) && key in db && db[key].ListObj?
      ensures ok <==> dst == None || dst.value !in old(db) || old(db)[dst.value].ListObj?
      ensures delivered == old(delivered) +
                [if dst == None then Popped(c, key, value) else if ok then Moved(c, dst.value, value) else Refused(c)]
      ensures SameStreams(old(db), db)
      ensures if dst == None || !ok then db == old(db)
              else db == old(db)[dst.value := ListObj([value] +
                                                   if dst.value in old(db) then old(db)[dst.value].elems else [])]
      ensures old(readyDict) <= readyDict
    {
      hide Index, NodesBelow, Counted, Queued, ReadyOk, Typed, NoLost, Valid;
      ok := true;
      match dst
      case None =>
        delivered := delivered + [Popped(c, key, value)];
      case Some(d) =>
        if d in db && !db[d].ListObj? {
          delivered := delivered + [Refused(c)];
          return false;
        }
        if d !in db {
          DbAdd(d, ListObj([]), round, Some(key));
        }
        ghost var db0 := db;
        db := db[d := ListObj([value] + db[d].elems)];
        NoLostAt(clients, waiting, db0, db, readyDict, Some(key), d);
        delivered := delivered + [Moved(c, d, value)];
    }

    /** A turn of the loop that serves a list: the client at the head waits for a list, and
        there is an element to pop. */
    method ServeHead(key: Key, c: ClientId, ghost round: seq<Key>)
      requires Valid(round) && NoLost(clients, waiting, db, readyDict, Some(key)) && Full(db, Some(key))
      requires key in db && db[key].ListObj? && db[key].elems != []
      requires QueueOf(waiting, key) != [] && QueueOf(waiting, key)[0].client == c && c in clients
      requires clients[c].btype == OnList
      modifies this`clients, this`waiting, this`unblocked, this`blockedClients, this`blockedByType
      modifies this`readyDict, this`readyKeys, this`db, this`delivered
      ensures Valid(round) && NoLost(clients, waiting, db, readyDict, Some(key)) && Full(db, Some(key)) && key in db
      ensures db[key].ListObj?
      ensures c in clients && clients == old(clients)[c := clients[c]] && clients[c].btype == NotBlocked
      ensures QueueOf(waiting, key) == QueueOf(old(waiting), key)[1..]
      ensures |BlockedSet(clients)| < old(|BlockedSet(clients)|) && old(readyDict) <= readyDict
      ensures Onward(old(clients), old(waiting), old(db), clients, waiting, db)
      ensures |delivered| == |old(delivered)| + 1 && delivered[..|old(delivered)|] == old(delivered)
      ensures delivered[|old(delivered)|].to == c && Fits(old(clients), delivered[|old(delivered)|])
      ensures var d := delivered[|old(delivered)|];
              match d
              case Refused(_) => db == old(db)
              case Popped(_, k, e) =>
                && k == key && db == old(db)[key := ListObj(db[key].elems)]
                && Ends(old(db)[key].elems, e, db[key].elems, old(clients)[c].wher)
              case Moved(_, k, e) =>
                && Some(k) == old(clients)[c].target && k in db && db[k].ListObj?
                && db[k].elems != [] && db[k].elems[0] == e
      ensures Total(db) + Handed(delivered) == old(Total(db) + Handed(delivered))
    {
      hide *;
      ghost var cs0, w0, db0 := clients, waiting, db;
      var dst, wher := clients[c].target, clients[c].wher;
      HoldsKey(round, key, 0);
      var value, rest := ListPop(db[key].elems, wher);
      db := db[key := ListObj(rest)];
      ghost var db1 := db;
      NoLostAt(clients, waiting, db0, db1, readyDict, Some(key), key);
      FullExcept(db0, db1, key);
      HeadOnce(round, key, c);
      UnblockClient(c, round);
      LessAfterUnblock(cs0, w0, clients, waiting, c);
      NoLostLess(cs0, w0, clients, waiting, db1, readyDict, Some(key));
      var ok := ServeOnList(c, key, dst, value, round);
      ghost var db2 := db;
      if ok && dst != None { FullUpdate(db1, Some(key), dst.value, db2[dst.value]); }
      if !ok {
        PutBack(db0[key].elems, value, rest, wher);
        FullExcept(db2, db2[key := ListObj(ListPush(db2[key].elems, value, wher))], key);
        db := db[key := ListObj(ListPush(db[key].elems, value, wher))];
        NoLostAt(clients, waiting, db2, db, readyDict, Some(key), key);
      }
      ServeConserves(db0, db1, db, key, value, rest, dst, ok, old(delivered), delivered, wher);
      GoesOn(cs0, w0, db0, clients, waiting, db1, db2, db, key);
      FitsOne(cs0, c, key, value, dst, ok, delivered[|old(delivered)|]);
    }

    /** The client of a node in a key's list holds the key. */
    lemma HoldsKey(round: seq<Key>, key: Key, i: nat)
      requires Valid(round) && i < |QueueOf(waiting, key)|
      ensures QueueOf(waiting, key)[i].client in clients && key in clients[QueueOf(waiting, key)[i].client].keys
    {
      hide Counted, Typed, Queued, ReadyOk, NodesBelow, DistinctIds;
      assert Holds(clients, key, QueueOf(waiting, key)[i]);
    }

    /** A client of another type goes to the tail of the list. */
    method Rotate(key: Key, ghost round: seq<Key>, ghost but: Option<Key>)
      requires Valid(round) && key in waiting && waiting[key] != [] && NoLost(clients, waiting, db, readyDict, but)
      modifies this`waiting
      ensures Valid(round) && NoLost(clients, waiting, db, readyDict, but)
      ensures Onward(clients, old(waiting), db, clients, waiting, db)
      ensures waiting == old(waiting)[key := old(waiting)[key][1..] + [old(waiting)[key][0]]]
    {
      hide *;
      Parts(round);
      ghost var w0 := waiting;
      waiting := waiting[key := waiting[key][1..] + [waiting[key][0]]];
      RotateKeeps(clients, w0, waiting, key, nextNode);
      NoLostLess(clients, w0, clients, waiting, db, readyDict, but);
      OnwardIs(clients, w0, db, clients, waiting, db);
      Whole(round);
    }

    /** The list branch of handleClientsBlockedOnKeys. Of the clients that wait for the key,
        the first i are looked at: those that wait for a list are served in that order, the
        others go to the tail; it ends at a client for whom no element is left. */
    method ServeList(key: Key, ghost round: seq<Key>) returns (ghost i: nat)
      requires Valid(round) && NoLost(clients, waiting, db, readyDict, Some(key)) && Full(db, None)
      requires key in db && db[key].ListObj?
      modifies this`clients, this`waiting, this`unblocked, this`blockedClients, this`blockedByType
      modifies this`readyDict, this`readyKeys, this`db, this`delivered
      ensures Valid(round) && NoLost(clients, waiting, db, readyDict, None) && Full(db, None)
      ensures Onward(old(clients), old(waiting), old(db), clients, waiting, db) && old(readyDict) <= readyDict
      ensures Served(old(clients), QueueOf(old(waiting), key), i, OnList,
                     clients, QueueOf(waiting, key), old(delivered), delivered)
      ensures i < |QueueOf(old(waiting), key)| ==>
              key !in db && old(clients)[QueueOf(old(waiting), key)[i].client].btype == OnList
      ensures Total(db) + Handed(delivered) == old(Total(db) + Handed(delivered))
      ensures |BlockedSet(clients)| <= old(|BlockedSet(clients)|)
      ensures readyKeys != old(readyKeys) ==> |BlockedSet(clients)| < old(|BlockedSet(clients)|)
    {
      hide Index, NodesBelow, Counted, Queued, ReadyOk, Typed, NoLost, Full, Valid, Total, Handed, Served, BlockedSet;
      hide Onward, Fits;
      ghost var cs0, q0, d0, w0, db0, dict0 := clients, QueueOf(waiting, key), delivered, waiting, db, readyDict;
      i := 0;
      ClientsDistinct(round, key);
      ServedNone(cs0, q0, OnList, d0);
      OnwardNone(cs0, w0, db0);
      FullBut(db, key);
      if key in waiting {
        var numclients := |waiting[key]|;
        while numclients > 0
          invariant i + numclients == |q0|
          invariant Valid(round) && NoLost(clients, waiting, db, readyDict, Some(key)) && Full(db, Some(key))
          invariant key in db && db[key].ListObj?
          invariant Served(cs0, q0, i, OnList, clients, QueueOf(waiting, key), d0, delivered)
          invariant Onward(cs0, w0, db0, clients, waiting, db) && dict0 <= readyDict
          invariant Total(db) + Handed(delivered) == old(Total(db) + Handed(delivered))
          invariant |BlockedSet(clients)| <= old(|BlockedSet(clients)|)
          invariant readyKeys != old(readyKeys) ==> |BlockedSet(clients)| < old(|BlockedSet(clients)|)
        {
          ServedHead(cs0, q0, i, OnList, clients, QueueOf(waiting, key), d0, delivered);
          numclients := numclients - 1;
          var receiver := waiting[key][0].client;
          ghost var cs1, q1, d1, w1, db1 := clients, QueueOf(waiting, key), delivered, waiting, db;
          if clients[receiver].btype != OnList {
            Rotate(key, round, Some(key));
            ServedRotate(cs0, q0, i, OnList, cs1, q1, d0, d1);
            OnwardTwice(cs0, w0, db0, cs1, w1, db1, clients, waiting, db);
            i := i + 1;
            continue;
          }
          if db[key].elems == [] { break; }
          ServeHead(key, receiver, round);
          ServedOne(cs0, q0, i, OnList, cs1, q1, d0, d1, clients, delivered);
          OnwardTwice(cs0, w0, db0, cs1, w1, db1, clients, waiting, db);
          i := i + 1;
        }
      }
      EndList(key, cs0, q0, i, d0);
      if db[key].elems == [] {
        TotalRemove(db, key);
        OnwardLess(cs0, w0, db0, clients, waiting, db, key);
        db := db - {key};
      }
    }

    lemma EndList(key: Key, cs0: Clients, q0: seq<Node>, i: nat, d0: seq<Delivery>)
      requires NoLost(clients, waiting, db, readyDict, Some(key)) && Full(db, Some(key)) && key in db
      requires db[key].ListObj?
      requires Served(cs0, q0, i, OnList, clients, QueueOf(waiting, key), d0, delivered)
      requires i < |q0| ==> db[key].elems == []
      ensures var db' := if db[key].elems == [] then db - {key} else db;
              NoLost(clients, waiting, db', readyDict, None) && Full(db', None)
    {
      var db' := if db[key].elems == [] then db - {key} else db;
      if i == |q0| { NoneLeft(cs0, q0, OnList, clients, QueueOf(waiting, key), d0, delivered); }
      forall k | Starved(clients, waiting, db', k) ensures k in readyDict {
        assert k != key;
        assert Starved(clients, waiting, db, k);
      }
    }

    lemma ClientsDistinct(round: seq<Key>, key: Key)
      requires Valid(round)
      ensures DistinctClients(QueueOf(waiting, key)) && forall n :: n in QueueOf(waiting, key) ==> n.client in clients
    {
      hide Counted, Typed, Queued, ReadyOk, NodesBelow, DistinctIds;
      var q := QueueOf(waiting, key);
      forall n | n in q ensures n.client in clients { assert Holds(clients, key, n); }
      forall i, j | 0 <= i < j < |q| ensures q[i].client != q[j].client {
        assert q[i] in q;
        OnceEach(clients, waiting, q[i].client, key);
      }
    }

    /** A turn of the loop that serves a sorted set: the client at the head pops one member. */
    method ServeZsetHead(key: Key, c: ClientId, ghost round: seq<Key>)
      requires Valid(round) && NoLost(clients, waiting, db, readyDict, Some(key)) && Full(db, None)
      requires key in db && db[key].ZsetObj?
      requires QueueOf(waiting, key) != [] && QueueOf(waiting, key)[0].client == c && c in clients
      requires clients[c].btype == OnZset
      modifies this`clients, this`waiting, this`unblocked, this`blockedClients, this`blockedByType, this`db
      modifies this`delivered
      ensures Valid(round) && NoLost(clients, waiting, db, readyDict, Some(key)) && Full(db, None)
      ensures c in clients && clients == old(clients)[c := clients[c]] && clients[c].btype == NotBlocked
      ensures QueueOf(waiting, key) == QueueOf(old(waiting), key)[1..]
      ensures |BlockedSet(clients)| < old(|BlockedSet(clients)|)
      ensures Onward(old(clients), old(waiting), old(db), clients, waiting, db)
      ensures |delivered| == |old(delivered)| + 1 && Fits(old(clients), delivered[|old(delivered)|])
      ensures exists e, rest ::
                Ends(old(db)[key].elems, e, rest, old(clients)[c].wher)
                && delivered == old(delivered) + [Popped(c, key, e)]
                && db == if rest == [] then old(db) - {key} else old(db)[key := ZsetObj(rest)]
      ensures Total(db) + Handed(delivered) == old(Total(db) + Handed(delivered))
    {
      hide *;
      ghost var cs0, w0, db0 := clients, waiting, db;
      ZsetFull(db, key);
      HeadOnce(round, key, c);
      HoldsKey(round, key, 0);
      UnblockClient(c, round);
      LessAfterUnblock(cs0, w0, clients, waiting, c);
      NoLostLess(cs0, w0, clients, waiting, db, readyDict, Some(key));
      var value, rest := ListPop(db[key].elems, clients[c].wher);
      PopZset(db0, key, value, rest, delivered, Popped(c, key, value));
      db := if rest == [] then db - {key} else db[key := ZsetObj(rest)];
      NoLostAt(clients, waiting, db0, db, readyDict, Some(key), key);
      GoesOn(cs0, w0, db0, clients, waiting, db0, db0, db, key);
      FitsZset(cs0, c, key, value);
      delivered := delivered + [Popped(c, key, value)];
    }

    /** The sorted set branch: as for lists, while there are members. */
    method ServeZset(key: Key, ghost round: seq<Key>) returns (ghost i: nat)
      requires Valid(round) && NoLost(clients, waiting, db, readyDict, Some(key)) && Full(db, None)
      requires key in db && db[key].ZsetObj?
      modifies this`clients, this`waiting, this`unblocked, this`blockedClients, this`blockedByType, this`db
      modifies this`delivered
      ensures Valid(round) && NoLost(clients, waiting, db, readyDict, None) && Full(db, None)
      ensures Onward(old(clients), old(waiting), old(db), clients, waiting, db) && old(readyDict) <= readyDict
      ensures Served(old(clients), QueueOf(old(waiting), key), i, OnZset,
                     clients, QueueOf(waiting, key), old(delivered), delivered)
      ensures i < |QueueOf(old(waiting), key)| ==> key !in db
      ensures Total(db) + Handed(delivered) == old(Total(db) + Handed(delivered))
      ensures |BlockedSet(clients)| <= old(|BlockedSet(clients)|)
    {
      hide Index, NodesBelow, Counted, Queued, ReadyOk, Typed, NoLost, Full, Valid, Total, Handed, Served, BlockedSet;
      hide Onward, Fits;
      ghost var cs0, q0, d0, w0, db0, dict0 := clients, QueueOf(waiting, key), delivered, waiting, db, readyDict;
      i := 0;
      ClientsDistinct(round, key);
      ServedNone(cs0, q0, OnZset, d0);
      OnwardNone(cs0, w0, db0);
      if key in waiting {
        var numclients := |waiting[key]|;
        var zcard := |db[key].elems|;
        while numclients > 0 && zcard > 0
          invariant i + numclients == |q0| && numclients >= 0
          invariant Valid(round) && NoLost(clients, waiting, db, readyDict, Some(key)) && Full(db, None)
          invariant if key in db then db[key].ZsetObj? && zcard == |db[key].elems| else zcard == 0
          invariant Served(cs0, q0, i, OnZset, clients, QueueOf(waiting, key), d0, delivered)
          invariant Onward(cs0, w0, db0, clients, waiting, db) && dict0 <= readyDict
          invariant Total(db) + Handed(delivered) == old(Total(db) + Handed(delivered))
          invariant |BlockedSet(clients)| <= old(|BlockedSet(clients)|)
        {
          ServedHead(cs0, q0, i, OnZset, clients, QueueOf(waiting, key), d0, delivered);
          numclients := numclients - 1;
          var receiver := waiting[key][0].client;
          ghost var cs1, q1, d1, w1, db1 := clients, QueueOf(waiting, key), delivered, waiting, db;
          if clients[receiver].btype != OnZset {
            Rotate(key, round, Some(key));
            ServedRotate(cs0, q0, i, OnZset, cs1, q1, d0, d1);
          } else {
            ServeZsetHead(key, receiver, round);
            ServedOne(cs0, q0, i, OnZset, cs1, q1, d0, d1, clients, delivered);
            zcard := zcard - 1;
          }
          OnwardTwice(cs0, w0, db0, cs1, w1, db1, clients, waiting, db);
          i := i + 1;
        }
        if key in db { ZsetFull(db, key); }
      }
      EndZset(key, cs0, q0, i, d0);
    }

    lemma EndZset(key: Key, cs0: Clients, q0: seq<Node>, i: nat, d0: seq<Delivery>)
      requires NoLost(clients, waiting, db, readyDict, Some(key)) && (key in db ==> db[key].ZsetObj? && i == |q0|)
      requires Served(cs0, q0, i, OnZset, clients, QueueOf(waiting, key), d0, delivered)
      ensures NoLost(clients, waiting, db, readyDict, None)
    {
      if i == |q0| { NoneLeft(cs0, q0, OnZset, clients, QueueOf(waiting, key), d0, delivered); }
      forall k | Starved(clients, waiting, db, k) ensures k in readyDict {
        assert k != key;
      }
    }

    /** A client somewhere in the list is served and leaves it. */
    method ServeStreamAt(key: Key, j: nat, c: ClientId, ghost round: seq<Key>)
      requires Valid(round) && NoLost(clients, waiting, db, readyDict, Some(key))
      requires j < |QueueOf(waiting, key)| && QueueOf(waiting, key)[j].client == c && c in clients
      requires clients[c].btype == OnStream
      modifies this`clients, this`waiting, this`unblocked, this`blockedClients, this`blockedByType
      ensures Valid(round) && NoLost(clients, waiting, db, readyDict, Some(key))
      ensures c in clients && clients == old(clients)[c := clients[c]] && clients[c].btype == NotBlocked
      ensures QueueOf(waiting, key) == QueueOf(old(waiting), key)[..j] + QueueOf(old(waiting), key)[j + 1..]
      ensures |BlockedSet(clients)| < old(|BlockedSet(clients)|)
      ensures Onward(old(clients), old(waiting), db, clients, waiting, db)
    {
      hide *;
      ghost var cs1, w1 := clients, waiting;
      ClientsDistinct(round, key);
      DropAt(QueueOf(waiting, key), j);
      UnblockClient(c, round);
      LessAfterUnblock(cs1, w1, clients, waiting, c);
      NoLostLess(cs1, w1, clients, waiting, db, readyDict, Some(key));
      OnwardIs(cs1, w1, db, clients, waiting, db);
    }

    /** The stream branch: whoever waits for ids after an earlier one than the last is served. */
    method ServeStream(key: Key, ghost round: seq<Key>)
      requires Valid(round) && NoLost(clients, waiting, db, readyDict, Some(key)) && key in db && db[key].StreamObj?
      requires Full(db, None)
      modifies this`clients, this`waiting, this`unblocked, this`blockedClients, this`blockedByType
      ensures Valid(round) && NoLost(clients, waiting, db, readyDict, None) && CaughtUp(clients, waiting, db, key)
      ensures Onward(old(clients), old(waiting), db, clients, waiting, db)
      ensures |BlockedSet(clients)| <= old(|BlockedSet(clients)|) && clients.Keys == old(clients).Keys
      ensures StreamServed(old(clients), QueueOf(old(waiting), key), |QueueOf(old(waiting), key)|, key, db[key].last,
                           clients, QueueOf(waiting, key))
    {
      hide Index, NodesBelow, Counted, Queued, ReadyOk, Typed, NoLost, Valid, BlockedSet, DropClient, StreamServed;
      hide WantsMore, NotMore, Onward, Full, CaughtUp;
      ghost var cs0, q0, w0, last := clients, QueueOf(waiting, key), waiting, db[key].last;
      OnwardNone(cs0, w0, db);
      ClientsDistinct(round, key);
      StreamStart(cs0, q0, key, last);
      var j := 0;
      ghost var i := 0;
      while j < |QueueOf(waiting, key)|
        invariant i <= |q0| && j == |NotMore(cs0, q0[..i], key, last)| && |QueueOf(waiting, key)| == j + |q0| - i
        invariant Valid(round) && NoLost(clients, waiting, db, readyDict, Some(key))
        invariant |BlockedSet(clients)| <= old(|BlockedSet(clients)|)
        invariant StreamServed(cs0, q0, i, key, last, clients, QueueOf(waiting, key))
        invariant Onward(cs0, w0, db, clients, waiting, db)
        invariant clients.Keys == old(clients).Keys
        decreases |q0| - i
      {
        var n := waiting[key][j];
        StreamNext(cs0, q0, i, key, last, clients, QueueOf(waiting, key));
        if WantsMore(clients, key, db[key].last, n) {
          ghost var cs1, q1, w1 := clients, QueueOf(waiting, key), waiting;
          ServeStreamAt(key, j, n.client, round);
          OnwardTwice(cs0, w0, db, cs1, w1, db, clients, waiting, db);
          StreamOne(cs0, q0, i, key, last, cs1, q1, clients);
        } else {
          j := j + 1;
        }
        i := i + 1;
      }
      NoneBehind(cs0, q0, key, last, clients, QueueOf(waiting, key));
      EndStream(key);
    }

    lemma EndStream(key: Key)
      requires NoLost(clients, waiting, db, readyDict, Some(key)) && key in db && db[key].StreamObj? && Full(db, None)
      requires forall n :: n in QueueOf(waiting, key) ==> !WantsMore(clients, key, db[key].last, n)
      ensures NoLost(clients, waiting, db, readyDict, None) && CaughtUp(clients, waiting, db, key)
    {
      forall k | Starved(clients, waiting, db, k) ensures k in readyDict {
        assert k != key;
      }
    }

    /** One ready key: it leaves the dictionary, and who waits for what it holds is served. */
    method ServeReady(key: Key, ghost round: seq<Key>)
      requires Valid([key] + round) && NoLost(clients, waiting, db, readyDict, None) && Full(db, None)
      modifies this`clients, this`waiting, this`unblocked, this`blockedClients, this`blockedByType
      modifies this`readyDict, this`readyKeys, this`db, this`delivered
      ensures Valid(round) && NoLost(clients, waiting, db, readyDict, None) && Full(db, None)
      ensures Total(db) + Handed(delivered) == old(Total(db) + Handed(delivered))
      ensures |BlockedSet(clients)| <= old(|BlockedSet(clients)|)
      ensures readyKeys != old(readyKeys) ==> |BlockedSet(clients)| < old(|BlockedSet(clients)|)
      ensures Handled(old(clients), old(delivered), old(db), clients, delivered)
      ensures CaughtUp(clients, waiting, db, key) && old(readyDict) - {key} <= readyDict
      ensures Onward(old(clients), old(waiting), old(db), clients, waiting, db)
    {
      hide *;
      ghost var cs0, q0, d0, w0, db0 := clients, QueueOf(waiting, key), delivered, waiting, db;
      Parts([key] + round);
      ReadyLess(readyDict, readyKeys, round, key);
      NoLostWithout(clients, waiting, db, readyDict, key);
      readyDict := readyDict - {key};
      Whole(round);
      if key in db && db[key].ListObj? {
        ghost var i := ServeList(key, round);
        ServedHandles(cs0, q0, i, OnList, clients, QueueOf(waiting, key), d0, delivered, db0);
        NoStream(cs0, w0, db0, clients, waiting, db, key);
      } else if key in db && db[key].ZsetObj? {
        ghost var i := ServeZset(key, round);
        ServedHandles(cs0, q0, i, OnZset, clients, QueueOf(waiting, key), d0, delivered, db0);
        NoStream(cs0, w0, db0, clients, waiting, db, key);
      } else if key in db && db[key].StreamObj? {
        ServeStream(key, round);
        StreamHandles(cs0, q0, |q0|, key, db[key].last, clients, QueueOf(waiting, key), delivered, db);
      } else {
        NothingToServe(clients, waiting, db, readyDict, key);
        HandledNone(clients, delivered, db);
        OnwardNone(clients, waiting, db);
        NoStream(cs0, w0, db0, clients, waiting, db, key);
      }
    }

    /** handleClientsBlockedOnKeys: rounds over the ready keys until there are none. A round
        that makes keys ready has unblocked a client, so the rounds end. */
    method HandleClientsBlockedOnKeys()
      requires Valid([]) && NoLost(clients, waiting, db, readyDict, None) && Full(db, None)
      modifies this`clients, this`waiting, this`unblocked, this`blockedClients, this`blockedByType
      modifies this`readyDict, this`readyKeys, this`db, this`delivered
      ensures Valid([]) && Full(db, None) && readyKeys == [] && readyDict == {}
      ensures forall k :: !Starved(clients, waiting, db, k)
      ensures Total(db) + Handed(delivered) == old(Total(db) + Handed(delivered))
      ensures Handled(old(clients), old(delivered), old(db), clients, delivered)
      ensures forall k :: k in old(readyDict) ==> CaughtUp(clients, waiting, db, k)
    {
      hide *;
      HandledNone(clients, delivered, db);
      OnwardNone(clients, waiting, db);
      while |readyKeys| != 0
        invariant Valid([]) && NoLost(clients, waiting, db, readyDict, None) && Full(db, None)
        invariant Handled(old(clients), old(delivered), old(db), clients, delivered)
        invariant Onward(old(clients), old(waiting), old(db), clients, waiting, db)
        invariant forall k :: k in old(readyDict) && k !in readyDict ==> CaughtUp(clients, waiting, db, k)
        invariant Total(db) + Handed(delivered) == old(Total(db) + Handed(delivered))
        decreases |BlockedSet(clients)|, |readyKeys|
      {
        ghost var blocked := |BlockedSet(clients)|;
        var l := readyKeys;
        Parts([]);
        ReadyRound(readyDict, readyKeys);
        readyKeys := [];
        Whole(l);
        while |l| != 0
          invariant Valid(l) && NoLost(clients, waiting, db, readyDict, None) && Full(db, None)
          invariant Handled(old(clients), old(delivered), old(db), clients, delivered)
          invariant Onward(old(clients), old(waiting), old(db), clients, waiting, db)
          invariant forall k :: k in old(readyDict) && k !in readyDict ==> CaughtUp(clients, waiting, db, k)
          invariant Total(db) + Handed(delivered) == old(Total(db) + Handed(delivered))
          invariant |BlockedSet(clients)| <= blocked && (readyKeys != [] ==> |BlockedSet(clients)| < blocked)
          decreases |l|
        {
          assert l == [l[0]] + l[1..];
          ghost var cs1, d1, w1, db1, dict1 := clients, delivered, waiting, db, readyDict;
          ServeReady(l[0], l[1..]);
          HandledTwice(old(clients), old(delivered), old(db), old(waiting), cs1, d1, db1, w1, clients, delivered);
          OnwardTwice(old(clients), old(waiting), old(db), cs1, w1, db1, clients, waiting, db);
          forall k | k in old(readyDict) && k !in readyDict ensures CaughtUp(clients, waiting, db, k) {
            if k != l[0] { StaysCaughtUp(cs1, w1, db1, clients, waiting, db, k); }
          }
          l := l[1..];
        }
      }
      Parts([]);
      AllServed(clients, waiting, db, readyDict, readyKeys);
    }

    /** processUnblockedClients: the queue is emptied; clients blocked again keep their bytes
        for later. Returns the clients whose input is to be processed. */
    method ProcessUnblockedClients(ghost round: seq<Key>) returns (ran: seq<ClientId>)
      requires Valid(round)
      modifies this`clients, this`unblocked
      ensures Valid(round) && unblocked == [] && forall c :: c in clients ==> !clients[c].queued
      ensures clients.Keys == old(clients).Keys
      ensures forall c :: c in clients ==> clients[c] == old(clients)[c].(queued := false)
      ensures forall c :: c in ran <==> c in old(unblocked) && c in old(clients) && old(clients)[c].btype == NotBlocked
    {
      hide Index, NodesBelow, Counted, ReadyOk, Valid, Queued;
      ran := [];
      ghost var cs0, u0 := clients, unblocked;
      ghost var n := 0;
      while |unblocked| != 0
        invariant n <= |u0| && unblocked == u0[n..] && Valid(round) && clients.Keys == cs0.Keys
        invariant forall c :: c in clients ==> clients[c] == cs0[c].(queued := clients[c].queued)
        invariant forall c :: c in ran <==> c in u0[..n] && c in cs0 && cs0[c].btype == NotBlocked
        decreases |unblocked|
      {
        assert u0[..n + 1] == u0[..n] + [u0[n]];
        var c := TakeUnblocked(round);
        n := n + 1;
        if clients[c].btype == NotBlocked {
          ran := ran + [c];
        }
      }
      assert u0[..n] == u0;
      NoneQueued(round);
    }

    lemma NoneQueued(round: seq<Key>)
      requires Valid(round) && unblocked == []
      ensures forall c :: c in clients ==> !clients[c].queued
    {
    }

    /** The first of the queue leaves it. */
    method TakeUnblocked(ghost round: seq<Key>) returns (c: ClientId)
      requires Valid(round) && unblocked != []
      modifies this`clients, this`unblocked
      ensures Valid(round) && c == old(unblocked)[0] && unblocked == old(unblocked)[1..]
      ensures c in old(clients) && clients == old(clients)[c := old(clients)[c].(queued := false)]
    {
      hide *;
      Parts(round);
      c := unblocked[0];
      QueuedFirst(clients, unblocked);
      IndexSame(clients, waiting, c, clients[c].(queued := false));
      CountSame(clients, c, clients[c].(queued := false), blockedClients, blockedByType);
      TypedSame(clients, c, clients[c].(queued := false));
      unblocked := unblocked[1..];
      clients := clients[c := clients[c].(queued := false)];
      Whole(round);
    }

    /** A client is at most once in a list: dropping the head's client drops the head alone. */
    lemma HeadOnce(round: seq<Key>, key: Key, c: ClientId)
      requires Valid(round) && QueueOf(waiting, key) != [] && QueueOf(waiting, key)[0].client == c && c in clients
      ensures DropClient(QueueOf(waiting, key), c) == QueueOf(waiting, key)[1..]
    {
      hide Counted, Typed, Queued, ReadyOk, NodesBelow, Index;
      var q := QueueOf(waiting, key);
      OnceEach(clients, waiting, c, key);
      forall n | n in q[1..] ensures n.client != c {
        var i :| 0 < i < |q| && q[i] == n;
        assert q[0].client == c;
      }
      DropNone(q[1..], c);
    }

    /** blockClient: the flag, the type and the counts. */
    method BlockClient(c: ClientId, t: BType, ghost cs0: Clients)
      requires c in clients && clients[c].btype == NotBlocked && t != NotBlocked && clients[c].keys != map[]
      requires Index(clients, waiting) && cs0.Keys == clients.Keys
      requires forall b :: b in clients && b != c ==> clients[b] == cs0[b]
      requires cs0[c].btype == NotBlocked && clients[c].queued == cs0[c].queued
      requires Typed(cs0) && Counted(cs0, blockedClients, blockedByType) && Queued(cs0, unblocked)
      modifies this`clients, this`blockedClients, this`blockedByType
      ensures clients == old(clients)[c := old(clients)[c].(btype := t)] && Index(clients, waiting)
      ensures Typed(clients) && Counted(clients, blockedClients, blockedByType) && Queued(clients, unblocked)
    {
      hide Index, Counted, Queued, Typed;
      TypedBlock(cs0, clients, c, t);
      IndexSame(clients, waiting, c, clients[c].(btype := t));
      clients := clients[c := clients[c].(btype := t)];
      CountBlock(cs0, c, clients[c], blockedClients, blockedByType);
      assert cs0[c := clients[c]] == clients;
      SameQueued(cs0, clients, unblocked);
      blockedClients := blockedClients + 1;
      blockedByType := blockedByType[t := blockedByType[t] + 1];
    }
  }

  // ----- nobody who can be served is forgotten ---------------------------------------------------------

  /** Whoever could be served from what a key holds waits for a key that is marked ready;
      the key `but` is left out while it is being served. */
  ghost predicate NoLost(cs: Clients, w: Waiting, db: Database, dict: set<Key>, but: Option<Key>)
  {
    forall k :: Some(k) != but && Starved(cs, w, db, k) ==> k in dict
  }

  ghost predicate LessStarved(cs: Clients, w: Waiting, ds: Clients, v: Waiting)
  {
    forall k, n :: n in QueueOf(v, k) && n.client in ds && ds[n.client].btype != NotBlocked ==>
      && n in QueueOf(w, k) && n.client in cs
      && cs[n.client].btype == ds[n.client].btype && cs[n.client].keys == ds[n.client].keys
  }

  // ----- going on ----------------------------------------------------------------------------

  ghost predicate SameStreams(db: Database, db': Database)
  {
    forall k :: (k in db && db[k].StreamObj?) || (k in db' && db'[k].StreamObj?) ==>
      k in db && k in db' && db'[k] == db[k]
  }

  /** What serving keeps: nobody begins to wait, and streams are as they were. */
  ghost predicate Onward(cs: Clients, w: Waiting, db: Database, ds: Clients, v: Waiting, db': Database)
  {
    LessStarved(cs, w, ds, v) && SameStreams(db, db')
  }

  lemma OnwardIs(cs: Clients, w: Waiting, db: Database, ds: Clients, v: Waiting, db': Database)
    requires LessStarved(cs, w, ds, v) && SameStreams(db, db')
    ensures Onward(cs, w, db, ds, v, db')
  {
  }

  lemma OnwardNone(cs: Clients, w: Waiting, db: Database)
    ensures Onward(cs, w, db, cs, w, db)
  {
  }

  lemma OnwardTwice(cs: Clients, w: Waiting, db: Database, cs1: Clients, w1: Waiting, db1: Database, ds: Clients,
                    v: Waiting, db': Database)
    requires Onward(cs, w, db, cs1, w1, db1) && Onward(cs1, w1, db1, ds, v, db')
    ensures Onward(cs, w, db, ds, v, db')
  {
    hide QueueOf;
  }

  lemma OnwardLess(cs: Clients, w: Waiting, db: Database, ds: Clients, v: Waiting, db': Database, k: Key)
    requires Onward(cs, w, db, ds, v, db') && k in db' && !db'[k].StreamObj?
    ensures Onward(cs, w, db, ds, v, db' - {k})
  {
    hide LessStarved;
  }

  /** An element is taken out, handed on, and perhaps put back. */
  lemma GoesOn(cs: Clients, w: Waiting, db0: Database, ds: Clients, v: Waiting, db1: Database, db2: Database,
               db: Database, key: Key)
    requires LessStarved(cs, w, ds, v) && key in db0 && !db0[key].StreamObj? && (db1 == db2 || SameStreams(db1, db2))
    requires forall k :: k != key ==> (k in db0 <==> k in db1) && (k in db0 ==> db0[k] == db1[k])
    requires forall k :: k != key ==> (k in db2 <==> k in db) && (k in db2 ==> db2[k] == db[k])
    requires key in db1 && !db1[key].StreamObj? && (key in db ==> !db[key].StreamObj?)
    ensures Onward(cs, w, db0, ds, v, db)
  {
    hide LessStarved;
  }

  lemma StaysCaughtUp(cs: Clients, w: Waiting, db: Database, ds: Clients, v: Waiting, db': Database, k: Key)
    requires Onward(cs, w, db, ds, v, db') && CaughtUp(cs, w, db, k)
    ensures CaughtUp(ds, v, db', k)
  {
  }

  lemma NoStream(cs: Clients, w: Waiting, db: Database, ds: Clients, v: Waiting, db': Database, k: Key)
    requires Onward(cs, w, db, ds, v, db') && (k in db ==> !db[k].StreamObj?)
    ensures CaughtUp(ds, v, db', k)
  {
    hide LessStarved;
  }

  lemma NoLostLess(cs: Clients, w: Waiting, ds: Clients, v: Waiting, db: Database, dict: set<Key>, but: Option<Key>)
    requires NoLost(cs, w, db, dict, but) && LessStarved(cs, w, ds, v)
    ensures NoLost(ds, v, db, dict, but)
  {
    forall k | Some(k) != but && Starved(ds, v, db, k) ensures k in dict {
      var n :| n in QueueOf(v, k) && n.client in ds && WaitsFor(ds[n.client], k, db[k]);
      assert n in QueueOf(w, k);
    }
  }

  /** One more client waits, for keys that hold nothing it could be served from. */
  lemma NoLostBlock(cs: Clients, w: Waiting, ds: Clients, v: Waiting, db: Database, dict: set<Key>, c: ClientId,
                    keys: seq<Key>, after: seq<int>)
    requires c in ds && ds.Keys == cs.Keys && (forall b :: b in ds && b != c ==> ds[b] == cs[b])
    requires |after| == |keys| && Asked(ds[c].keys, keys, after, |keys|)
    requires (forall k :: k in keys ==> k in ds[c].keys)
    requires Index(cs, w) && cs[c].keys == map[]
    requires forall k :: QueueOf(v, k) == QueueOf(w, k) + if k in keys then [Node(ds[c].keys[k].node, c)] else []
    ensures NoLost(cs, w, db, dict, None) &&
              (forall j :: 0 <= j < |keys| && keys[j] in db ==> !Serves(db[keys[j]], ds[c].btype, after[j])) ==>
            NoLost(ds, v, db, dict, None)
  {
    hide Index, Serves, Asked;
    if NoLost(cs, w, db, dict, None) &&
       forall j :: 0 <= j < |keys| && keys[j] in db ==> !Serves(db[keys[j]], ds[c].btype, after[j]) {
      forall k | Starved(ds, v, db, k) ensures k in dict {
        var n :| n in QueueOf(v, k) && n.client in ds && WaitsFor(ds[n.client], k, db[k]);
        NotInQueue(cs, w, c, k);
        if n.client != c {
          assert n in QueueOf(w, k);
        } else if k in keys {
          var j := FirstAsked(ds[c].keys, keys, after, k);
        }
      }
    }
  }

  /** A key's first mention. */
  lemma {:induction false} FirstAt(keys: seq<Key>, k: Key) returns (j: nat)
    requires k in keys
    ensures j < |keys| && keys[j] == k && k !in keys[..j]
  {
    if keys[0] == k {
      j := 0;
    } else {
      var i := FirstAt(keys[1..], k);
      j := i + 1;
      assert keys[..j] == [keys[0]] + keys[1..][..i];
    }
  }

  lemma FirstAsked(m: map<Key, Info>, keys: seq<Key>, after: seq<int>, k: Key) returns (j: nat)
    requires |after| == |keys| && Asked(m, keys, after, |keys|) && k in keys
    ensures j < |keys| && keys[j] == k && k in m && m[k].after == after[j]
  {
    j := FirstAt(keys, k);
  }

  /** The database changes at one key. */
  lemma NoLostAt(cs: Clients, w: Waiting, db: Database, db': Database, dict: set<Key>, but: Option<Key>, k: Key)
    requires NoLost(cs, w, db, dict, but) && (forall j :: j in db' && j != k ==> j in db && db'[j] == db[j])
    requires Some(k) == but || k in dict || k !in db' ||
             (k in db && SameType(db[k], db'[k]))
    ensures NoLost(cs, w, db', dict, but)
  {
    forall j | Some(j) != but && Starved(cs, w, db', j) ensures j in dict {
      var n :| n in QueueOf(w, j) && n.client in cs && WaitsFor(cs[n.client], j, db'[j]);
      if j in db && WaitsFor(cs[n.client], j, db[j]) { assert Starved(cs, w, db, j); }
    }
  }

  lemma NoLostMore(cs: Clients, w: Waiting, db: Database, dict: set<Key>, dict': set<Key>, but: Option<Key>)
    requires NoLost(cs, w, db, dict, but) && dict <= dict'
    ensures NoLost(cs, w, db, dict', but)
  {
  }

  /** A key whose value is stored without a signal is forgotten iff it is wanted and not queued. */
  lemma Overwritten(cs: Clients, w: Waiting, db: Database, dict: set<Key>, but: Option<Key>, k: Key, o: Obj)
    requires NoLost(cs, w, db, dict, but)
    ensures NoLost(cs, w, db[k := o], dict, but) <==> Some(k) == but || k in dict || !Wanted(cs, w, k, o)
  {
    var db' := db[k := o];
    assert Starved(cs, w, db', k) <==> Wanted(cs, w, k, o);
    forall j | j != k ensures Starved(cs, w, db', j) <==> Starved(cs, w, db, j) { }
  }

  /** A list stored over a string, as SORT with STORE does: a client that began to wait when
      the key was not there is not served, and the key not queued. */
  lemma OverwriteForgets()
    ensures var k := Key(0, [1]);
            var cs, w := map[7 := Client(OnList, map[k := Info(0, 0)], None, Front, false)], map[k := [Node(0, 7)]];
            var db, db' := map[k := OtherObj], map[k := ListObj([[2]])];
            && Index(cs, w) && Typed(cs) && NoLost(cs, w, db, {}, None)
            && db' == db[k := ListObj([[2]])] && !NoLost(cs, w, db', {}, None)
  {
    var k := Key(0, [1]);
    var cs, w := map[7 := Client(OnList, map[k := Info(0, 0)], None, Front, false)], map[k := [Node(0, 7)]];
    var db, db' := map[k := OtherObj], map[k := ListObj([[2]])];
    assert Node(0, 7) in w[k] && w[k][0] == Node(0, 7);
    assert Starved(cs, w, db', k) by { assert Node(0, 7) in QueueOf(w, k); }
  }

  lemma AddedClient(cs: Clients, w: Waiting, c: ClientId, all: int, byType: map<BType, int>, unblocked: seq<ClientId>)
    requires Index(cs, w) && Typed(cs) && Counted(cs, all, byType) && Queued(cs, unblocked) && c !in cs
    ensures var ds := cs[c := IDLE];
            && Index(ds, w) && Typed(ds) && Counted(ds, all, byType) && Queued(ds, unblocked)
            && LessStarved(cs, w, ds, w)
  {
    var ds := cs[c := IDLE];
    assert ds - {c} == cs - {c};
    CountIdle(cs, ds, c, all, byType);
    hide Counted;
    forall k, n | k in w && n in w[k] ensures Holds(ds, k, n) { assert Holds(cs, k, n); }
    forall k, n | n in QueueOf(w, k) ensures n.client in cs { assert Holds(cs, k, n); }
  }

  lemma GoneClient(cs: Clients, w: Waiting, c: ClientId, all: int, byType: map<BType, int>, unblocked: seq<ClientId>)
    requires Index(cs, w) && Typed(cs) && Counted(cs, all, byType) && Queued(cs, unblocked) && c in cs
    requires cs[c].btype == NotBlocked
    ensures var ds := cs - {c}; Index(ds, w) && Typed(ds) && Counted(ds, all, byType) && LessStarved(cs, w, ds, w)
    ensures Queued(cs - {c}, if cs[c].queued then RemoveId(unblocked, c) else unblocked)
  {
    var ds := cs - {c};
    assert ds - {c} == cs - {c};
    hide Counted, Index, Queued, Typed, LessStarved;
    CountIdle(cs, ds, c, all, byType);
    GoneIndex(cs, w, c);
    GoneQueued(cs, c, unblocked);
  }

  lemma GoneIndex(cs: Clients, w: Waiting, c: ClientId)
    requires Index(cs, w) && Typed(cs) && c in cs && cs[c].btype == NotBlocked
    ensures var ds := cs - {c}; Index(ds, w) && Typed(ds) && LessStarved(cs, w, ds, w)
  {
    forall k, n | k in w && n in w[k] ensures Holds(cs - {c}, k, n) { assert Holds(cs, k, n); }
  }

  lemma GoneQueued(cs: Clients, c: ClientId, unblocked: seq<ClientId>)
    requires Queued(cs, unblocked) && c in cs
    ensures Queued(cs - {c}, if cs[c].queued then RemoveId(unblocked, c) else unblocked)
  {
    RemoveIdIs(unblocked, c);
  }

  lemma StillQueued(cs: Clients, u: seq<ClientId>, ds: Clients, v: seq<ClientId>, c: ClientId)
    requires Queued(cs, u) && Queued(ds, v) && c in cs && c in ds && ds == cs[c := ds[c]]
    ensures forall b :: b in (if ds[c].queued then RemoveId(v, c) else v) <==> b in u && b != c
  {
    RemoveIdIs(v, c);
  }

  lemma {:induction false} RemoveIdIs(u: seq<ClientId>, c: ClientId)
    requires forall i, j :: 0 <= i < j < |u| ==> u[i] != u[j]
    ensures var r := RemoveId(u, c);
            (forall b :: b in r <==> b in u && b != c) && forall i, j :: 0 <= i < j < |r| ==> r[i] != r[j]
  {
    if u != [] {
      RemoveIdIs(u[1..], c);
      var r := RemoveId(u[1..], c);
      if u[0] == c {
        assert forall b :: b in u[1..] ==> b != c;
      } else {
        forall j | 0 <= j < |r| ensures r[j] != u[0] {
          assert r[j] in r;
          assert r[j] in u[1..];
        }
      }
    }
  }

  lemma TypedBlock(cs: Clients, ds: Clients, c: ClientId, t: BType)
    requires Typed(cs) && cs.Keys == ds.Keys && c in ds && ds[c].keys != map[] && t != NotBlocked
    requires forall b :: b in ds && b != c ==> ds[b] == cs[b]
    ensures Typed(ds[c := ds[c].(btype := t)])
  {
  }

  lemma QueuedFirst(cs: Clients, unblocked: seq<ClientId>)
    requires Queued(cs, unblocked) && unblocked != []
    ensures unblocked[0] in cs && Queued(cs[unblocked[0] := cs[unblocked[0]].(queued := false)], unblocked[1..])
  {
  }

  lemma TypedSame(cs: Clients, c: ClientId, d: Client)
    requires Typed(cs) && c in cs && d.btype == cs[c].btype && d.keys == cs[c].keys
    ensures Typed(cs[c := d])
  {
  }

  lemma TypedUpdate(cs: Clients, c: ClientId, d: Client)
    requires Typed(cs) && (d.btype == NotBlocked <==> d.keys == map[])
    ensures Typed(cs[c := d])
  {
  }

  /** The client of node n waits for entries of a stream after an id that is not the last. */
  predicate WantsMore(cs: Clients, key: Key, last: int, n: Node)
  {
    n.client in cs && cs[n.client].btype == OnStream && key in cs[n.client].keys && last > cs[n.client].keys[key].after
  }

  /** The nodes whose clients go on waiting. */
  function NotMore(cs: Clients, q: seq<Node>, key: Key, last: int): seq<Node>
  {
    if q == [] then [] else
    NotMore(cs, q[..|q| - 1], key, last) + if WantsMore(cs, key, last, q[|q| - 1]) then [] else [q[|q| - 1]]
  }

  /** After looking at the first i of the clients q0 of a stream. */
  ghost predicate StreamServed(cs0: Clients, q0: seq<Node>, i: nat, key: Key, last: int, cs: Clients, q: seq<Node>)
  {
    && i <= |q0| && DistinctClients(q0) && cs.Keys == cs0.Keys && q == NotMore(cs0, q0[..i], key, last) + q0[i..]
    && (forall n :: n in q0[..i] && WantsMore(cs0, key, last, n) ==> cs[n.client].btype == NotBlocked)
    && forall c :: c in cs && cs[c] != cs0[c] ==>
        exists n :: n in q0[..i] && n.client == c && WantsMore(cs0, key, last, n)
  }

  lemma StreamStart(cs: Clients, q: seq<Node>, key: Key, last: int)
    requires DistinctClients(q)
    ensures StreamServed(cs, q, 0, key, last, cs, q) && NotMore(cs, q[..0], key, last) == []
  {
    assert q[..0] == [] && [] + q[0..] == q;
  }

  lemma KeepFirst(kept: seq<Node>, q0: seq<Node>, i: nat)
    requires i < |q0|
    ensures kept + [q0[i]] + q0[i + 1..] == kept + q0[i..]
  {
  }

  /** The next client is at the cursor and as it was; if it goes on waiting, it stays there. */
  lemma StreamNext(cs0: Clients, q0: seq<Node>, i: nat, key: Key, last: int, cs: Clients, q: seq<Node>)
    requires StreamServed(cs0, q0, i, key, last, cs, q) && i < |q0|
    ensures var j := |NotMore(cs0, q0[..i], key, last)|;
            && j < |q| && q[j] == q0[i] && (WantsMore(cs, key, last, q[j]) <==> WantsMore(cs0, key, last, q0[i]))
            && |NotMore(cs0, q0[..i + 1], key, last)| == j + (if WantsMore(cs0, key, last, q0[i]) then 0 else 1)
    ensures WantsMore(cs, key, last, q0[i]) ==> q0[i].client in cs && cs[q0[i].client].btype == OnStream
    ensures !WantsMore(cs0, key, last, q0[i]) ==> StreamServed(cs0, q0, i + 1, key, last, cs, q)
  {
    hide NotMore;
    var n := q0[i];
    NextNotMore(cs0, q0, i, key, last);
    assert forall m :: m in q0[..i] ==> m.client != n.client;
    assert q0[..i + 1] == q0[..i] + [n];
    if n.client in cs { assert cs[n.client] == cs0[n.client]; }
    KeepFirst(NotMore(cs0, q0[..i], key, last), q0, i);
  }

  /** Who is left in the list in the end is not behind. */
  lemma NoneBehind(cs0: Clients, q0: seq<Node>, key: Key, last: int, cs: Clients, q: seq<Node>)
    requires StreamServed(cs0, q0, |q0|, key, last, cs, q)
    ensures forall n :: n in q ==> !WantsMore(cs, key, last, n)
  {
    assert q0[..|q0|] == q0 && q == NotMore(cs0, q0, key, last);
    NotMoreIs(cs0, q0, key, last);
    forall n | n in q ensures !WantsMore(cs, key, last, n) {
      assert forall m :: m in q0 && m.client == n.client ==> m == n;
    }
  }

  lemma {:induction false} NotMoreIs(cs: Clients, q: seq<Node>, key: Key, last: int)
    ensures forall n :: n in NotMore(cs, q, key, last) ==> n in q && !WantsMore(cs, key, last, n)
    decreases |q|
  {
    hide WantsMore;
    if q != [] { NotMoreIs(cs, q[..|q| - 1], key, last); }
  }

  lemma DropFirst(kept: seq<Node>, q0: seq<Node>, i: nat)
    requires i < |q0|
    ensures var q, j := kept + q0[i..], |kept|; j < |q| && q[..j] + q[j + 1..] == kept + q0[i + 1..]
  {
  }

  lemma StreamOne(cs0: Clients, q0: seq<Node>, i: nat, key: Key, last: int, cs: Clients, q: seq<Node>, cs': Clients)
    requires StreamServed(cs0, q0, i, key, last, cs, q) && i < |q0| && WantsMore(cs0, key, last, q0[i])
    requires q0[i].client in cs
    requires q0[i].client in cs' && cs' == cs[q0[i].client := cs'[q0[i].client]]
    requires cs'[q0[i].client].btype == NotBlocked
    ensures var j := |NotMore(cs0, q0[..i], key, last)|;
            j < |q| && StreamServed(cs0, q0, i + 1, key, last, cs', q[..j] + q[j + 1..])
  {
    hide WantsMore, NotMore;
    var n := q0[i];
    NextNotMore(cs0, q0, i, key, last);
    DropFirst(NotMore(cs0, q0[..i], key, last), q0, i);
    assert q0[..i + 1] == q0[..i] + [n];
    assert n in q0[..i + 1];
    forall c | c in cs' && cs'[c] != cs0[c]
      ensures exists m :: m in q0[..i + 1] && m.client == c && WantsMore(cs0, key, last, m)
    {
      if c != n.client { assert cs[c] != cs0[c]; }
    }
  }

  lemma NextNotMore(cs: Clients, q: seq<Node>, i: nat, key: Key, last: int)
    requires i < |q|
    ensures NotMore(cs, q[..i + 1], key, last)
         == NotMore(cs, q[..i], key, last) + if WantsMore(cs, key, last, q[i]) then [] else [q[i]]
  {
    assert q[..i + 1][..i] == q[..i];
  }

  lemma {:induction false} DropAt(q: seq<Node>, j: nat)
    requires j < |q| && DistinctClients(q)
    ensures DropClient(q, q[j].client) == q[..j] + q[j + 1..]
    decreases |q|
  {
    if j == 0 {
      DropNone(q[1..], q[0].client);
    } else {
      DropAt(q[1..], j - 1);
      assert q[..j] == [q[0]] + q[1..][..j - 1];
    }
  }

  lemma ZsetFull(db: Database, key: Key)
    requires Full(db, None) && key in db && db[key].ZsetObj?
    ensures db[key].elems != []
  {
  }

  lemma PopZset(db: Database, key: Key, value: Elem, rest: seq<Elem>, ds: seq<Delivery>, d: Delivery)
    requires Full(db, None) && key in db && db[key].ZsetObj?
    requires multiset(db[key].elems) == multiset(rest) + multiset{value}
    requires d.Popped? && d.elem == value
    ensures var db' := if rest == [] then db - {key} else db[key := ZsetObj(rest)];
            Full(db', None) && Total(db') + Handed(ds + [d]) == Total(db) + Handed(ds)
  {
    hide Total, Handed;
    HandedMore(ds, d);
    TotalRemove(db, key);
    if rest != [] {
      TotalRemove(db[key := ZsetObj(rest)], key);
      assert db[key := ZsetObj(rest)] - {key} == db - {key};
    }
  }

  /** What the index does not look at may change. */
  lemma IndexSame(cs: Clients, w: Waiting, c: ClientId, d: Client)
    requires Index(cs, w) && c in cs && d.keys == cs[c].keys
    ensures Index(cs[c := d], w)
  {
    forall k, n | k in w && n in w[k] ensures Holds(cs[c := d], k, n) {
      assert Holds(cs, k, n);
    }
  }

  lemma SameQueued(cs: Clients, ds: Clients, unblocked: seq<ClientId>)
    requires Queued(cs, unblocked) && cs.Keys == ds.Keys && forall c :: c in cs ==> cs[c].queued == ds[c].queued
    ensures Queued(ds, unblocked)
  {
  }

  lemma BelowRemoved(w: Waiting, k: Key, id: NodeId, next: NodeId)
    requires k in w && NodesBelow(w, next)
    ensures NodesBelow(Removed(w, k, id), next)
  {
    WithoutIn(w[k], id);
    forall j, n | j in Removed(w, k, id) && n in Removed(w, k, id)[j] ensures n.id < next {
      assert j in w && n in w[j];
    }
  }

  lemma {:induction false} WithoutIn(q: seq<Node>, id: NodeId)
    ensures forall n :: n in Without(q, id) ==> n in q
  {
    if q != [] { WithoutIn(q[1..], id); }
  }

  lemma NotInQueue(cs: Clients, w: Waiting, c: ClientId, k: Key)
    requires Index(cs, w) && (c in cs ==> k !in cs[c].keys)
    ensures forall n :: n in QueueOf(w, k) ==> n.client != c
  {
    forall n | n in QueueOf(w, k) ensures n.client != c {
      assert Holds(cs, k, n);
    }
  }

  // ----- what serving a list of clients does -------------------------------------------------------------

  /** The clients of a list that wait for type t, in order. */
  function OfType(cs: Clients, q: seq<Node>, t: BType): seq<ClientId>
    requires forall n :: n in q ==> n.client in cs
  {
    if q == [] then [] else
    OfType(cs, q[..|q| - 1], t) + if cs[q[|q| - 1].client].btype == t then [q[|q| - 1].client] else []
  }

  /** The nodes of the others, in order. */
  function Others(cs: Clients, q: seq<Node>, t: BType): seq<Node>
    requires forall n :: n in q ==> n.client in cs
  {
    if q == [] then [] else
    Others(cs, q[..|q| - 1], t) + if cs[q[|q| - 1].client].btype == t then [] else [q[|q| - 1]]
  }

  /** After looking at the first i of the clients q0: those of type t got the new deliveries,
      one each and in order; the others follow the ones that were not looked at. */
  ghost predicate Served(cs0: Clients, q0: seq<Node>, i: nat, t: BType, cs: Clients, q: seq<Node>, d0: seq<Delivery>,
                         d: seq<Delivery>)
  {
    && i <= |q0| && DistinctClients(q0) && (forall n :: n in q0 ==> n.client in cs0) && cs.Keys == cs0.Keys
    && q == q0[i..] + Others(cs0, q0[..i], t)
    && d0 <= d && Receivers(d[|d0|..]) == OfType(cs0, q0[..i], t)
    && (forall j :: |d0| <= j < |d| ==> Fits(cs0, d[j]))
    && forall c :: c in cs0 ==> if c in OfType(cs0, q0[..i], t) then cs[c].btype == NotBlocked else cs[c] == cs0[c]
  }

  /** A client gets an element of a key it waits for, or its own target does. */
  predicate Fits(cs: Clients, d: Delivery)
  {
    d.to in cs &&
    match d
    case Popped(c, k, _) => k in cs[c].keys && (cs[c].btype == OnList ==> cs[c].target == None)
    case Moved(c, dst, _) => cs[c].target == Some(dst)
    case Refused(c) => cs[c].target != None
  }

  lemma FitsOne(cs: Clients, c: ClientId, key: Key, value: Elem, dst: Option<Key>, ok: bool, d: Delivery)
    requires c in cs && key in cs[c].keys && dst == cs[c].target && (dst == None ==> ok)
    requires d == if dst == None then Popped(c, key, value) else if ok then Moved(c, dst.value, value) else Refused(c)
    ensures Fits(cs, d)
  {
  }

  lemma FitsZset(cs: Clients, c: ClientId, key: Key, value: Elem)
    requires c in cs && key in cs[c].keys && cs[c].btype == OnZset
    ensures Fits(cs, Popped(c, key, value))
  {
  }

  /** The client waits for ids that some stream has given out. */
  ghost predicate Behind(cl: Client, db: Database)
  {
    exists k :: k in cl.keys && k in db && db[k].StreamObj? && cl.keys[k].after < db[k].last
  }

  /** What serving does to clients: those who leave have waited, and each of them gets one
      answer for a key of its own or, behind at a stream, may read on; the others are as they
      were. */
  ghost predicate Handled(cs0: Clients, d0: seq<Delivery>, db0: Database, cs: Clients, d: seq<Delivery>)
  {
    && d0 <= d && Answered(cs0, db0, cs, Receivers(d[|d0|..]))
    && forall j :: |d0| <= j < |d| ==> Fits(cs0, d[j])
  }

  ghost predicate Answered(cs0: Clients, db0: Database, cs: Clients, r: seq<ClientId>)
  {
    && cs.Keys == cs0.Keys
    && (forall c :: c in cs && cs[c] != cs0[c] ==>
          && cs0[c].btype != NotBlocked && cs[c].btype == NotBlocked
          && if cs0[c].btype == OnStream then Behind(cs0[c], db0) else c in r)
    && (forall c :: c in r ==> c in cs && cs0[c].btype in {OnList, OnZset} && cs[c].btype == NotBlocked)
    && forall i, j :: 0 <= i < j < |r| ==> r[i] != r[j]
  }

  lemma HandledNone(cs: Clients, d: seq<Delivery>, db: Database)
    ensures Handled(cs, d, db, cs, d)
  {
    assert d[|d|..] == [];
  }

  lemma HandledTwice(cs0: Clients, d0: seq<Delivery>, db0: Database, w0: Waiting, cs1: Clients, d1: seq<Delivery>,
                     db1: Database, w1: Waiting, cs2: Clients, d2: seq<Delivery>)
    requires Handled(cs0, d0, db0, cs1, d1) && Handled(cs1, d1, db1, cs2, d2) && Onward(cs0, w0, db0, cs1, w1, db1)
    ensures Handled(cs0, d0, db0, cs2, d2)
  {
    hide Behind, LessStarved, SameStreams, Fits;
    var r1, r2 := Receivers(d1[|d0|..]), Receivers(d2[|d1|..]);
    assert d2[|d0|..] == d1[|d0|..] + d2[|d1|..];
    assert Receivers(d2[|d0|..]) == r1 + r2;
    AnsweredTwice(cs0, db0, cs1, r1, db1, cs2, r2);
    forall j | |d0| <= j < |d2| ensures Fits(cs0, d2[j]) {
      if j < |d1| {
        assert d2[j] == d1[j];
      } else {
        assert d2[j].to == r2[j - |d1|];
        assert d2[j].to in r2;
        FitsBefore(cs0, cs1, d2[j]);
      }
    }
  }

  lemma FitsBefore(cs: Clients, ds: Clients, d: Delivery)
    requires Fits(ds, d) && d.to in cs && cs[d.to] == ds[d.to]
    ensures Fits(cs, d)
  {
  }

  lemma StillBehind(cl: Client, db0: Database, db1: Database)
    requires SameStreams(db0, db1)
    ensures Behind(cl, db0) <==> Behind(cl, db1)
  {
  }

  lemma AnsweredTwice(cs0: Clients, db0: Database, cs1: Clients, r1: seq<ClientId>, db1: Database, cs2: Clients,
                      r2: seq<ClientId>)
    requires Answered(cs0, db0, cs1, r1) && Answered(cs1, db1, cs2, r2) && SameStreams(db0, db1)
    ensures Answered(cs0, db0, cs2, r1 + r2)
  {
    hide Behind, SameStreams;
    var r := r1 + r2;
    forall c | c in r
      ensures c in cs2 && cs0[c].btype in {OnList, OnZset} && cs2[c].btype == NotBlocked
    {
      if c in r2 { assert cs1[c] == cs0[c]; } else { assert cs2[c] == cs1[c]; }
    }
    forall c | c in cs2 && cs2[c] != cs0[c]
      ensures cs0[c].btype != NotBlocked && cs2[c].btype == NotBlocked
      ensures if cs0[c].btype == OnStream then Behind(cs0[c], db0) else c in r
    {
      StillBehind(cs0[c], db0, db1);
    }
    forall i, j | 0 <= i < j < |r| ensures r[i] != r[j] {
      if i < |r1| <= j { assert r[i] in r1 && r[j] in r2; }
    }
  }

  lemma ServedHandles(cs0: Clients, q0: seq<Node>, i: nat, t: BType, cs: Clients, q: seq<Node>, d0: seq<Delivery>,
                      d: seq<Delivery>, db0: Database)
    requires Served(cs0, q0, i, t, cs, q, d0, d) && t in {OnList, OnZset}
    ensures Handled(cs0, d0, db0, cs, d)
  {
    hide Fits, Behind;
    OfTypeOnce(cs0, q0[..i], t);
  }

  lemma {:induction false} OfTypeOnce(cs: Clients, q: seq<Node>, t: BType)
    requires DistinctClients(q) && forall n :: n in q ==> n.client in cs
    ensures forall c :: c in OfType(cs, q, t) ==> c in cs && cs[c].btype == t && exists n :: n in q && n.client == c
    ensures forall i, j :: 0 <= i < j < |OfType(cs, q, t)| ==> OfType(cs, q, t)[i] != OfType(cs, q, t)[j]
    decreases |q|
  {
    if q != [] {
      OfTypeOnce(cs, q[..|q| - 1], t);
      assert q == q[..|q| - 1] + [q[|q| - 1]];
    }
  }

  lemma StreamHandles(cs0: Clients, q0: seq<Node>, i: nat, key: Key, last: int, cs: Clients, q: seq<Node>,
                      d: seq<Delivery>, db: Database)
    requires StreamServed(cs0, q0, i, key, last, cs, q) && key in db && db[key].StreamObj? && last == db[key].last
    ensures Handled(cs0, d, db, cs, d)
  {
    hide NotMore;
    assert d[|d|..] == [];
  }

  function Receivers(ds: seq<Delivery>): (r: seq<ClientId>)
    ensures |r| == |ds| && forall j :: 0 <= j < |ds| ==> r[j] == ds[j].to
  {
    seq(|ds|, j requires 0 <= j < |ds| => ds[j].to)
  }

  ghost predicate DistinctClients(q: seq<Node>) { forall i, j :: 0 <= i < j < |q| ==> q[i].client != q[j].client }

  lemma ServedNone(cs: Clients, q: seq<Node>, t: BType, d: seq<Delivery>)
    requires DistinctClients(q) && forall n :: n in q ==> n.client in cs
    ensures Served(cs, q, 0, t, cs, q, d, d)
  {
    assert q[..0] == [] && q[0..] + [] == q && d[|d|..] == [];
  }

  /** The next client to look at is at the head, and as it was at the start. */
  lemma ServedHead(cs0: Clients, q0: seq<Node>, i: nat, t: BType, cs: Clients, q: seq<Node>, d0: seq<Delivery>,
                   d: seq<Delivery>)
    requires Served(cs0, q0, i, t, cs, q, d0, d) && i < |q0|
    ensures q != [] && q[0] == q0[i] && q[0].client in cs && cs[q[0].client] == cs0[q0[i].client]
  {
    OfTypeIn(cs0, q0[..i], t);
  }

  lemma {:induction false} OfTypeIn(cs: Clients, q: seq<Node>, t: BType)
    requires forall n :: n in q ==> n.client in cs
    ensures forall c :: c in OfType(cs, q, t) ==> exists j :: 0 <= j < |q| && q[j].client == c
    decreases |q|
  {
    if q != [] {
      OfTypeIn(cs, q[..|q| - 1], t);
      forall c | c in OfType(cs, q, t) ensures exists j :: 0 <= j < |q| && q[j].client == c {
        if c in OfType(cs, q[..|q| - 1], t) {
          var j :| 0 <= j < |q| - 1 && q[..|q| - 1][j].client == c;
          assert q[j].client == c;
        } else {
          assert q[|q| - 1].client == c;
        }
      }
    }
  }

  /** When all were looked at, nobody left waits for type t. */
  lemma NoneLeft(cs0: Clients, q0: seq<Node>, t: BType, cs: Clients, q: seq<Node>, d0: seq<Delivery>, d: seq<Delivery>)
    requires Served(cs0, q0, |q0|, t, cs, q, d0, d) && t != NotBlocked
    ensures forall n :: n in q ==> n.client in cs && cs[n.client].btype != t
  {
    assert q0[..|q0|] == q0;
    OthersNot(cs0, q0, t);
  }

  lemma {:induction false} OthersNot(cs: Clients, q: seq<Node>, t: BType)
    requires forall n :: n in q ==> n.client in cs
    ensures forall n :: n in Others(cs, q, t) ==> n in q && cs[n.client].btype != t
    decreases |q|
  {
    if q != [] { OthersNot(cs, q[..|q| - 1], t); }
  }

  lemma ServedRotate(cs0: Clients, q0: seq<Node>, i: nat, t: BType, cs: Clients, q: seq<Node>, d0: seq<Delivery>,
                     d: seq<Delivery>)
    requires Served(cs0, q0, i, t, cs, q, d0, d) && i < |q0| && cs0[q0[i].client].btype != t
    ensures q != [] && Served(cs0, q0, i + 1, t, cs, q[1..] + [q[0]], d0, d)
  {
    NextOfType(cs0, q0, i, t);
    assert (q0[i..] + Others(cs0, q0[..i], t))[1..] == q0[i + 1..] + Others(cs0, q0[..i], t);
    assert q[1..] + [q[0]] == q0[i + 1..] + (Others(cs0, q0[..i], t) + [q0[i]]);
  }

  lemma ServedOne(cs0: Clients, q0: seq<Node>, i: nat, t: BType, cs: Clients, q: seq<Node>, d0: seq<Delivery>,
                  d: seq<Delivery>, cs': Clients, d': seq<Delivery>)
    requires Served(cs0, q0, i, t, cs, q, d0, d) && i < |q0| && cs0[q0[i].client].btype == t
    requires q0[i].client in cs' && cs' == cs[q0[i].client := cs'[q0[i].client]]
    requires cs'[q0[i].client].btype == NotBlocked
    requires |d'| == |d| + 1 && d'[..|d|] == d && d'[|d|].to == q0[i].client && Fits(cs, d'[|d|])
    requires q0[i].client in cs && cs[q0[i].client].btype == t && t != NotBlocked
    ensures q != [] && Served(cs0, q0, i + 1, t, cs', q[1..], d0, d')
  {
    hide Fits;
    NextOfType(cs0, q0, i, t);
    assert cs[q0[i].client] == cs0[q0[i].client];
    FitsBefore(cs0, cs, d'[|d|]);
    assert q[1..] == q0[i + 1..] + Others(cs0, q0[..i], t);
    assert d' == d + [d'[|d|]];
    assert d'[|d0|..] == d[|d0|..] + [d'[|d|]];
    assert Receivers(d'[|d0|..]) == Receivers(d[|d0|..]) + [q0[i].client];
  }

  lemma NextOfType(cs: Clients, q: seq<Node>, i: nat, t: BType)
    requires i < |q| && forall n :: n in q ==> n.client in cs
    ensures OfType(cs, q[..i + 1], t) == OfType(cs, q[..i], t) + if cs[q[i].client].btype == t then [q[i].client]
            else []
    ensures Others(cs, q[..i + 1], t) == Others(cs, q[..i], t) + if cs[q[i].client].btype == t then [] else [q[i]]
  {
    assert q[..i + 1][..i] == q[..i];
  }

  lemma RotateKeeps(cs: Clients, w: Waiting, v: Waiting, key: Key, next: NodeId)
    requires Index(cs, w) && NodesBelow(w, next) && key in w && w[key] != [] && v == w[key := w[key][1..] + [w[key][0]]]
    ensures Index(cs, v) && NodesBelow(v, next) && LessStarved(cs, w, cs, v)
  {
    var q, r := w[key], v[key];
    assert forall n :: n in r <==> n in q by { assert q == [q[0]] + q[1..]; }
    forall k, n | k in v && n in v[k] ensures Holds(cs, k, n) && n.id < next { assert k in w && n in w[k]; }
    forall i, j | 0 <= i < j < |r| ensures r[i].id != r[j].id {
      assert r[i] == q[i + 1];
      if j < |r| - 1 { assert r[j] == q[j + 1]; } else { assert r[j] == q[0]; }
    }
  }

  // ----- popping and pushing ---------------------------------------------------------------------------

  /** `value` is at that end of the elements, and `rest` are the others. */
  predicate Ends(elems: seq<Elem>, value: Elem, rest: seq<Elem>, wher: Where)
  {
    && elems != [] && value == elems[if wher == Front then 0 else |elems| - 1]
    && rest == if wher == Front then elems[1..] else elems[..|elems| - 1]
  }

  method ListPop(elems: seq<Elem>, wher: Where) returns (value: Elem, rest: seq<Elem>)
    requires elems != []
    ensures Ends(elems, value, rest, wher) && multiset(elems) == multiset(rest) + multiset{value}
  {
    assert elems == [elems[0]] + elems[1..] == elems[..|elems| - 1] + [elems[|elems| - 1]];
    if wher == Front {
      value, rest := elems[0], elems[1..];
    } else {
      value, rest := elems[|elems| - 1], elems[..|elems| - 1];
    }
  }

  lemma PutBack(elems: seq<Elem>, value: Elem, rest: seq<Elem>, wher: Where)
    requires Ends(elems, value, rest, wher)
    ensures ListPush(rest, value, wher) == elems
  {
  }

  function ListPush(elems: seq<Elem>, value: Elem, wher: Where): seq<Elem>
  {
    if wher == Front then [value] + elems else elems + [value]
  }

  /** No list or sorted set is stored empty, except perhaps the one being served. */
  ghost predicate Full(db: Database, but: Option<Key>)
  {
    && (forall k :: k in db && Some(k) != but && (db[k].ListObj? || db[k].ZsetObj?) ==> db[k].elems != [])
    && forall k :: k in db && db[k].StreamObj? ==> db[k].top <= db[k].last
  }

  lemma FullBut(db: Database, key: Key)
    requires Full(db, None)
    ensures Full(db, Some(key))
  {
  }

  lemma FullExcept(db: Database, db': Database, key: Key)
    requires Full(db, Some(key)) && forall k :: k in db' && k != key ==> k in db && db'[k] == db[k]
    requires key in db' ==> !db'[key].StreamObj?
    ensures Full(db', Some(key))
  {
  }

  lemma {:induction false} LessAfterUnblock(cs: Clients, w: Waiting, ds: Clients, v: Waiting, c: ClientId)
    requires c in cs && c in ds && ds == cs[c := ds[c]] && ds[c].btype == NotBlocked
    requires forall k :: QueueOf(v, k) == DropClient(QueueOf(w, k), c)
    ensures LessStarved(cs, w, ds, v)
  {
    forall k, n | n in QueueOf(v, k) && n.client in ds && ds[n.client].btype != NotBlocked
      ensures n in QueueOf(w, k) && n.client in cs && cs[n.client] == ds[n.client]
    {
      DropKeeps(QueueOf(w, k), c);
    }
  }

  /** The popped element is handed out, in the target, or back where it was. */
  lemma {:induction false} ServeConserves(db0: Database, db1: Database, db: Database, key: Key, value: Elem,
                                          rest: seq<Elem>, dst: Option<Key>, ok: bool, before: seq<Delivery>,
                                          after: seq<Delivery>, wher: Where)
    requires key in db0 && db0[key].ListObj? && db1 == db0[key := ListObj(rest)]
    requires multiset(db0[key].elems) == multiset(rest) + multiset{value}
    requires |after| == |before| + 1 && after[..|before|] == before
    requires after[|before|].Popped? <==> dst == None
    requires dst == None ==> after[|before|].elem == value && ok && db == db1
    requires dst != None && ok ==> dst.value !in db1 || db1[dst.value].ListObj?
    requires dst != None && ok ==>
             db == db1[dst.value := ListObj([value] + if dst.value in db1 then db1[dst.value].elems else [])]
    requires !ok ==> db == db1[key := ListObj(ListPush(rest, value, wher))]
    ensures Total(db) + Handed(after) == Total(db0) + Handed(before)
  {
    hide Total, Handed;
    PopTotal(db0, key, value, rest);
    assert after == before + [after[|before|]];
    HandedMore(before, after[|before|]);
    if dst != None && ok {
      PushTotal(db1, dst.value, value, db[dst.value].elems);
    } else if !ok {
      PushTotal(db1, key, value, ListPush(rest, value, wher));
    }
  }

  lemma PopTotal(db: Database, key: Key, value: Elem, rest: seq<Elem>)
    requires key in db && db[key].ListObj? && multiset(db[key].elems) == multiset(rest) + multiset{value}
    ensures Total(db) == Total(db[key := ListObj(rest)]) + multiset{value}
  {
    hide Total;
    TotalUpdate(db, key, ListObj(rest));
    Cancel(Total(db[key := ListObj(rest)]), multiset{value}, Total(db), multiset(rest));
  }

  lemma PushTotal(db: Database, key: Key, value: Elem, elems: seq<Elem>)
    requires key in db ==> db[key].ListObj?
    requires multiset(elems) == (if key in db then multiset(db[key].elems) else multiset{}) + multiset{value}
    ensures Total(db[key := ListObj(elems)]) == Total(db) + multiset{value}
  {
    hide Total;
    TotalUpdate(db, key, ListObj(elems));
    Cancel(Total(db), multiset{value}, Total(db[key := ListObj(elems)]),
           if key in db then multiset(db[key].elems) else multiset{});
  }

  lemma Cancel(a: multiset<Elem>, v: multiset<Elem>, b: multiset<Elem>, r: multiset<Elem>)
    requires a + (r + v) == b + r
    ensures b == a + v
  {
    forall e ensures b[e] == (a + v)[e] {
      assert (a + (r + v))[e] == (b + r)[e];
    }
  }

  lemma FullUpdate(db: Database, but: Option<Key>, k: Key, o: Obj)
    requires Full(db, but) && NotEmpty(o)
    ensures Full(db[k := o], but)
  {
  }

  lemma ReadyLess(dict: set<Key>, ready: seq<Key>, round: seq<Key>, k: Key)
    requires ReadyOk(dict, ready, [k] + round)
    ensures ReadyOk(dict - {k}, ready, round)
  {
    var q, r := [k] + round + ready, round + ready;
    assert q == [k] + r;
    forall i, j | 0 <= i < j < |r| ensures r[i] != r[j] { assert q[i + 1] == r[i] && q[j + 1] == r[j]; }
    forall j | j in r ensures j != k {
      var i :| 0 <= i < |r| && r[i] == j;
      assert q[i + 1] == j && q[0] == k;
    }
  }

  lemma ReadyRound(dict: set<Key>, ready: seq<Key>)
    requires ReadyOk(dict, ready, [])
    ensures ReadyOk(dict, [], ready)
  {
    assert [] + ready == ready == ready + [];
  }

  lemma NoLostWithout(cs: Clients, w: Waiting, db: Database, dict: set<Key>, k: Key)
    requires NoLost(cs, w, db, dict, None)
    ensures NoLost(cs, w, db, dict - {k}, Some(k))
  {
  }

  lemma NothingToServe(cs: Clients, w: Waiting, db: Database, dict: set<Key>, k: Key)
    requires NoLost(cs, w, db, dict, Some(k)) && (k in db ==> db[k].OtherObj?)
    ensures NoLost(cs, w, db, dict, None)
  {
    forall j | Starved(cs, w, db, j) ensures j in dict { assert j != k; }
  }

  lemma AllServed(cs: Clients, w: Waiting, db: Database, dict: set<Key>, ready: seq<Key>)
    requires NoLost(cs, w, db, dict, None) && ReadyOk(dict, ready, []) && ready == []
    ensures dict == {} && forall k :: !Starved(cs, w, db, k)
  {
    assert [] + ready == [];
    forall k ensures !Starved(cs, w, db, k) { assert k !in dict; }
  }

  lemma ReadyMore(dict: set<Key>, ready: seq<Key>, round: seq<Key>, k: Key)
    requires ReadyOk(dict, ready, round) && k !in dict
    ensures ReadyOk(dict + {k}, ready + [k], round)
  {
    var q := round + ready;
    assert round + (ready + [k]) == q + [k] && k !in q;
  }
}
