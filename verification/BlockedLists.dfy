/** The lists of waiting clients as the server keeps them: linked lists on the heap, and for each
    client and key the node itself, by which the client leaves the list. */
module BlockedLists {
  import opened AdList
  import B = Blocked

  type Key = B.Key
  type ClientId = B.ClientId
  type Waiter = ListNode<ClientId>
  type Queues = map<Key, seq<Waiter>>

  /** bkinfo */
  datatype Bkinfo = Bkinfo(listnode: Waiter, after: int)
  type Infos = map<ClientId, map<Key, Bkinfo>>

  function QueueAt(qs: Queues, k: Key): seq<Waiter> { if k in qs then qs[k] else [] }

  /** A key with an empty queue is none. */
  function Put(qs: Queues, k: Key, q: seq<Waiter>): Queues { if q == [] then qs - {k} else qs[k := q] }

  // ----- the lists -------------------------------------------------------------------------------

  /** db->blocking_keys. `queues` are the nodes of each key in order; no two keys share a list or
      a node. */
  class BlockingKeys {
    var lists: map<Key, List<ClientId>>
    ghost var queues: Queues
    ghost var heads: map<List<ClientId>, Key>
    ghost var owner: map<Waiter, Key>

    ghost predicate Owns(k: Key)
      requires k in lists
      reads this, lists[k], lists[k].nodes
    {
      && k in queues && lists[k].nodes == queues[k] && lists[k].Valid()
      && lists[k] in heads && heads[lists[k]] == k && forall n :: n in lists[k].nodes ==> n in owner && owner[n] == k
    }

    ghost predicate Valid()
      reads this, heads.Keys, owner.Keys
    {
      && (forall k :: k in queues ==> k in lists)
      && forall k :: k in lists ==> lists[k] in heads && (forall n :: n in lists[k].nodes ==> n in owner) && Owns(k)
    }

    constructor ()
      ensures Valid() && queues == map[] && heads == map[] && owner == map[]
    {
      lists, queues, heads, owner := map[], map[], map[], map[];
    }

    /** What happens to the list of one key does not touch the others. */
    twostate lemma OwnsStill(j: Key)
      requires j in old(lists) && old(Owns(j))
      requires j in lists && lists[j] == old(lists[j]) && lists[j] in heads && heads[lists[j]] == j
      requires j in queues && queues[j] == old(queues[j])
      requires forall n :: n in old(lists[j].nodes) ==> n in owner && owner[n] == j
      requires unchanged(lists[j]) && forall n :: n in old(lists[j].nodes) ==> unchanged(n)
      ensures Owns(j)
    {
      StillValid(lists[j]);
    }

    /** listAddNodeTail, listLast. */
    method Append(k: Key, c: ClientId) returns (node: Waiter)
      requires Valid() && k in lists
      modifies this`queues, this`owner, lists[k], lists[k].nodes
      ensures Valid() && fresh(node) && node.value == c && owner.Keys == old(owner).Keys + {node}
      ensures queues == old(queues)[k := old(queues)[k] + [node]]
    {
      hide List.Valid;
      assert Owns(k);
      node := AppendTo(k, c);
      forall j | j in lists && j != k ensures Owns(j) && lists[j].nodes == old(lists[j].nodes) {
        assert old(Owns(j));
        assert forall n :: n in old(lists[j].nodes) ==> n !in old(lists[k].nodes);
        OwnsStill(j);
      }
    }

    method AppendTo(k: Key, c: ClientId) returns (node: Waiter)
      requires k in lists && Owns(k)
      modifies this`queues, this`owner, lists[k], lists[k].nodes
      ensures Owns(k) && fresh(node) && node.value == c && owner == old(owner)[node := k]
      ensures queues == old(queues)[k := old(queues)[k] + [node]]
    {
      hide List.Valid;
      node := lists[k].AddNodeTail(c);
      owner := owner[node := k];
      queues := queues[k := queues[k] + [node]];
    }

    /** listCreate, for a key that nobody waits for. */
    method Create(k: Key)
      requires Valid() && k !in lists
      modifies this
      ensures Valid() && queues == old(queues)[k := []] && owner == old(owner)
      ensures k in lists && fresh(lists[k]) && heads.Keys == old(heads).Keys + {lists[k]}
    {
      hide List.Valid;
      CreateList(k);
      forall j | j in lists && j != k ensures Owns(j) {
        assert old(Owns(j));
        OwnsStill(j);
      }
    }

    method CreateList(k: Key)
      requires k !in lists
      modifies this`lists, this`queues, this`heads
      ensures queues == old(queues)[k := []] && k in lists && fresh(lists[k]) && Owns(k)
      ensures lists == old(lists)[k := lists[k]] && heads == old(heads)[lists[k] := k]
    {
      hide List.Valid;
      var l := new List();
      lists := lists[k := l];
      heads := heads[l := k];
      queues := queues[k := []];
    }

    /** listDelNode, by the node itself. */
    method Delete(k: Key, node: Waiter, ghost i: nat)
      requires Valid() && k in lists && i < |queues[k]| && queues[k][i] == node
      modifies this`queues, lists[k], lists[k].nodes
      ensures Valid() && queues == old(queues)[k := old(queues)[k][..i] + old(queues)[k][i + 1..]]
      ensures lists[k].len == |queues[k]|
    {
      hide List.Valid;
      assert Owns(k);
      DeleteFrom(k, node, i);
      forall j | j in lists && j != k ensures Owns(j) && lists[j].nodes == old(lists[j].nodes) {
        assert old(Owns(j));
        assert forall n :: n in old(lists[j].nodes) ==> n !in old(lists[k].nodes);
        OwnsStill(j);
      }
    }

    method DeleteFrom(k: Key, node: Waiter, ghost i: nat)
      requires k in lists && Owns(k) && i < |queues[k]| && queues[k][i] == node
      modifies this`queues, lists[k], lists[k].nodes
      ensures Owns(k) && queues == old(queues)[k := old(queues)[k][..i] + old(queues)[k][i + 1..]]
      ensures lists[k].len == |queues[k]|
    {
      lists[k].DelNode(node, i);
      queues := queues[k := queues[k][..i] + queues[k][i + 1..]];
      hide List.Valid;
    }

    /** dictDelete of a list without nodes. */
    method Drop(k: Key)
      requires Valid() && k in lists && queues[k] == []
      modifies this`lists, this`queues
      ensures Valid() && queues == old(queues) - {k}
    {
      hide List.Valid;
      lists := lists - {k};
      queues := queues - {k};
      forall j | j in lists ensures Owns(j) {
        assert old(Owns(j));
        OwnsStill(j);
      }
    }

    /** listRotateHeadToTail: the nodes stay the same. */
    method RotateHeadToTail(k: Key)
      requires Valid() && k in lists && queues[k] != []
      modifies this`queues, lists[k], lists[k].nodes
      ensures Valid() && queues == old(queues)[k := old(queues)[k][1..] + [old(queues)[k][0]]]
    {
      hide List.Valid;
      assert Owns(k);
      RotateIn(k);
      forall j | j in lists && j != k ensures Owns(j) && lists[j].nodes == old(lists[j].nodes) {
        assert old(Owns(j));
        assert forall n :: n in old(lists[j].nodes) ==> n !in old(lists[k].nodes);
        OwnsStill(j);
      }
    }

    method RotateIn(k: Key)
      requires k in lists && Owns(k) && queues[k] != []
      modifies this`queues, lists[k], lists[k].nodes
      ensures Owns(k) && queues == old(queues)[k := old(queues)[k][1..] + [old(queues)[k][0]]]
    {
      hide List.Valid;
      ghost var q := queues[k];
      lists[k].RotateHeadToTail();
      assert |q| == 1 ==> q[1..] + [q[0]] == q;
      queues := queues[k := q[1..] + [q[0]]];
    }

    lemma KeysAgree(k: Key)
      requires Valid()
      ensures k in lists <==> k in queues
      ensures k in lists ==> lists[k].nodes == queues[k] && lists[k] in heads
      ensures k in lists ==> forall n :: n in queues[k] ==> n in owner
    {
      hide List.Valid;
      if k in lists { assert Owns(k); }
    }

    /** The end of blockForKeys' loop body. */
    method Enter(k: Key, c: ClientId) returns (node: Waiter)
      requires Valid()
      modifies this, heads.Keys, owner.Keys
      ensures Valid() && fresh(node) && node.value == c
      ensures queues == old(queues)[k := QueueAt(old(queues), k) + [node]]
      ensures fresh(heads.Keys - old(heads.Keys)) && fresh(owner.Keys - old(owner.Keys))
    {
      hide Valid, Owns, List.Valid;
      KeysAgree(k);
      if k !in lists {
        Create(k);
        KeysAgree(k);
      }
      node := Append(k, c);
    }

    /** The end of unblockClientWaitingData's loop body. */
    method Exit(k: Key, node: Waiter, ghost i: nat)
      requires Valid() && k in queues && i < |queues[k]| && queues[k][i] == node
      modifies this`queues, this`lists, heads.Keys, owner.Keys
      ensures Valid() && queues == Put(old(queues), k, old(queues)[k][..i] + old(queues)[k][i + 1..])
    {
      hide Valid, Owns, List.Valid;
      KeysAgree(k);
      Delete(k, node, i);
      if lists[k].len == 0 {
        Drop(k);
      }
    }

    /** listRotateHeadToTail, when the first client waits for another type. */
    method Rotate(k: Key)
      requires Valid() && k in queues && queues[k] != []
      modifies this`queues, heads.Keys, owner.Keys
      ensures Valid() && queues == old(queues)[k := old(queues)[k][1..] + [old(queues)[k][0]]]
    {
      hide Valid, Owns, List.Valid;
      KeysAgree(k);
      RotateHeadToTail(k);
    }
  }

  twostate lemma StillValid(o: List<ClientId>)
    requires old(o.Valid()) && unchanged(o) && forall n :: n in old(o.nodes) ==> unchanged(n)
    ensures o.Valid()
  {
    forall i | 0 <= i < |o.nodes| ensures Links(o.nodes, i) {
      assert old(Links(o.nodes, i)) && o.nodes[i] in o.nodes;
    }
  }

  // ----- the two-sided index, by the nodes themselves ----------------------------------------------

  ghost predicate Remembers(infos: Infos, k: Key, n: Waiter)
  {
    n.value in infos && k in infos[n.value] && infos[n.value][k].listnode == n
  }

  /** A client remembers its own node in the list of each key it waits for, and every node in a
      list is remembered so. */
  ghost predicate Indexed(infos: Infos, qs: Queues)
  {
    && (forall k :: k in qs ==> qs[k] != [] && Distinct(qs[k]))
    && (forall c, k :: c in infos && k in infos[c] ==>
          k in qs && infos[c][k].listnode in qs[k] && infos[c][k].listnode.value == c)
    && (forall k, n :: k in qs && n in qs[k] ==> Remembers(infos, k, n))
  }

  /** The nodes of the other clients, in order. */
  function Besides(ns: seq<Waiter>, c: ClientId): seq<Waiter>
  {
    if ns == [] then [] else if ns[0].value == c then Besides(ns[1..], c) else [ns[0]] + Besides(ns[1..], c)
  }

  lemma {:induction false} BesidesAll(ns: seq<Waiter>, c: ClientId)
    requires forall n :: n in ns ==> n.value != c
    ensures Besides(ns, c) == ns
  {
    if ns != [] { BesidesAll(ns[1..], c); }
  }

  /** If one node is the client's, taking it out is leaving the others. */
  lemma {:induction false} BesidesOf(ns: seq<Waiter>, i: nat, c: ClientId)
    requires i < |ns| && ns[i].value == c && forall j :: 0 <= j < |ns| && j != i ==> ns[j].value != c
    ensures Besides(ns, c) == ns[..i] + ns[i + 1..]
    decreases |ns|
  {
    if i == 0 {
      BesidesAll(ns[1..], c);
      assert [] + ns[1..] == ns[1..];
    } else {
      var t := ns[1..];
      assert forall j :: 0 <= j < |t| ==> t[j] == ns[j + 1];
      BesidesOf(t, i - 1, c);
      assert [ns[0]] + t[..i - 1] == ns[..i] && t[i..] == ns[i + 1..];
      assert [ns[0]] + (t[..i - 1] + t[i..]) == [ns[0]] + t[..i - 1] + t[i..];
    }
  }

  lemma JoinIndexed(infos: Infos, qs: Queues, c: ClientId, k: Key, b: Bkinfo)
    requires Indexed(infos, qs) && c in infos && k !in infos[c] && b.listnode.value == c
    requires b.listnode !in QueueAt(qs, k)
    ensures Indexed(infos[c := infos[c][k := b]], qs[k := QueueAt(qs, k) + [b.listnode]])
  {
    var infos', qs' := infos[c := infos[c][k := b]], qs[k := QueueAt(qs, k) + [b.listnode]];
    forall j, n | j in qs' && n in qs'[j] ensures Remembers(infos', j, n) {
      if !(j == k && n == b.listnode) { assert Remembers(infos, j, n); }
    }
  }

  /** The one node of a client in a list. */
  lemma OnlyNode(infos: Infos, qs: Queues, c: ClientId, k: Key) returns (i: nat)
    requires Indexed(infos, qs) && c in infos && k in infos[c]
    ensures k in qs && i < |qs[k]| && qs[k][i] == infos[c][k].listnode
    ensures Besides(qs[k], c) == qs[k][..i] + qs[k][i + 1..]
  {
    i :| 0 <= i < |qs[k]| && qs[k][i] == infos[c][k].listnode;
    forall j | 0 <= j < |qs[k]| && j != i ensures qs[k][j].value != c { assert Remembers(infos, k, qs[k][j]); }
    BesidesOf(qs[k], i, c);
  }

  lemma LeaveIndexed(infos: Infos, qs: Queues, c: ClientId, k: Key, i: nat)
    requires Indexed(infos, qs) && c in infos && k in infos[c] && i < |qs[k]| && qs[k][i] == infos[c][k].listnode
    ensures Indexed(infos[c := infos[c] - {k}], Put(qs, k, qs[k][..i] + qs[k][i + 1..]))
  {
    var q := qs[k][..i] + qs[k][i + 1..];
    var infos', qs' := infos[c := infos[c] - {k}], Put(qs, k, q);
    forall j, n | j in qs' && n in qs'[j] ensures Remembers(infos', j, n) {
      assert Remembers(infos, j, n);
      assert j == k ==> n != qs[k][i];
    }
    forall b, j | b in infos' && j in infos'[b] ensures j in qs' && infos'[b][j].listnode in qs'[j] {
      var n := infos[b][j].listnode;
      assert n in qs[j];
      if j == k { assert n != qs[k][i]; }
    }
  }

  lemma RotateIndexed(infos: Infos, qs: Queues, k: Key)
    requires Indexed(infos, qs) && k in qs
    ensures Indexed(infos, qs[k := qs[k][1..] + [qs[k][0]]])
  {
    var q := qs[k][1..] + [qs[k][0]];
    assert forall n :: n in q <==> n in qs[k];
  }

  /** What a client remembers are these keys, */
  ghost predicate ForKeys(mine: map<Key, Bkinfo>, ks: seq<Key>, n: nat)
    requires n <= |ks|
  {
    forall k :: k in mine <==> k in ks[..n]
  }

  /** with what was asked for when the key came first, */
  ghost predicate FirstAsked(mine: map<Key, Bkinfo>, ks: seq<Key>, after: seq<int>, n: nat)
    requires n <= |ks| == |after|
  {
    forall i :: 0 <= i < n && ks[i] !in ks[..i] ==> ks[i] in mine && mine[ks[i]].after == after[i]
  }

  /** and its nodes are the last ones. */
  ghost predicate Joined(qs0: Queues, qs: Queues, mine: map<Key, Bkinfo>)
  {
    forall k :: QueueAt(qs, k) == QueueAt(qs0, k) + if k in mine then [mine[k].listnode] else []
  }

  lemma NoneJoined(qs: Queues, ks: seq<Key>, after: seq<int>)
    requires |ks| == |after|
    ensures ForKeys(map[], ks, 0) && FirstAsked(map[], ks, after, 0) && Joined(qs, qs, map[])
  {
  }

  lemma SameAgain(mine: map<Key, Bkinfo>, ks: seq<Key>, after: seq<int>, j: nat)
    requires j < |ks| == |after| && ForKeys(mine, ks, j) && FirstAsked(mine, ks, after, j) && ks[j] in mine
    ensures ForKeys(mine, ks, j + 1) && FirstAsked(mine, ks, after, j + 1)
  {
    assert ks[..j + 1] == ks[..j] + [ks[j]];
  }

  lemma OneMoreKey(mine: map<Key, Bkinfo>, ks: seq<Key>, after: seq<int>, j: nat, b: Bkinfo)
    requires j < |ks| == |after| && ForKeys(mine, ks, j) && FirstAsked(mine, ks, after, j)
    requires ks[j] !in mine && b.after == after[j]
    ensures ForKeys(mine[ks[j] := b], ks, j + 1) && FirstAsked(mine[ks[j] := b], ks, after, j + 1)
  {
    assert ks[..j + 1] == ks[..j] + [ks[j]];
    forall i | 0 <= i < j + 1 && ks[i] !in ks[..i]
      ensures ks[i] in mine[ks[j] := b] && mine[ks[j] := b][ks[i]].after == after[i]
    {
      if i < j { assert ks[..j][i] == ks[i]; }
    }
  }

  lemma JoinedNext(qs0: Queues, qs: Queues, mine: map<Key, Bkinfo>, k: Key, b: Bkinfo)
    requires Joined(qs0, qs, mine) && k !in mine
    ensures Joined(qs0, qs[k := QueueAt(qs, k) + [b.listnode]], mine[k := b])
  {
  }

  /** The client has left the lists of these keys. */
  ghost predicate Left(qs0: Queues, qs: Queues, c: ClientId, ks: set<Key>)
  {
    forall k :: QueueAt(qs, k) == if k in ks then Besides(QueueAt(qs0, k), c) else QueueAt(qs0, k)
  }

  /** On the way out: these keys are left, and those not yet. */
  ghost predicate Leaving(was: Infos, c: ClientId, todo: map<Key, Bkinfo>, done: set<Key>, qs0: Queues, qs: Queues)
  {
    && c in was && done + todo.Keys == was[c].Keys && done !! todo.Keys
    && Indexed(was[c := todo], qs) && Left(qs0, qs, c, done)
  }

  lemma LeavingStarts(was: Infos, c: ClientId, qs: Queues)
    requires c in was && Indexed(was, qs)
    ensures Leaving(was, c, was[c], {}, qs, qs)
  {
    hide Besides, Indexed;
    assert was[c := was[c]] == was;
  }

  lemma LeavingMeans(was: Infos, c: ClientId, todo: map<Key, Bkinfo>, done: set<Key>, qs0: Queues, qs: Queues)
    requires Leaving(was, c, todo, done, qs0, qs)
    ensures c in was && Indexed(was[c := todo], qs)
  {
  }

  lemma LeavingNext(was: Infos, c: ClientId, todo: map<Key, Bkinfo>, done: set<Key>, qs0: Queues, qs: Queues,
                    qs': Queues, k: Key)
    requires Leaving(was, c, todo, done, qs0, qs) && k in todo && Indexed(was[c := todo - {k}], qs')
    requires qs' == Put(qs, k, Besides(QueueAt(qs, k), c))
    ensures Leaving(was, c, todo - {k}, done + {k}, qs0, qs')
  {
    hide Besides, Indexed;
    assert (todo - {k}).Keys == todo.Keys - {k};
  }

  lemma AllLeft(was: Infos, c: ClientId, done: set<Key>, qs0: Queues, qs: Queues)
    requires Indexed(was, qs0) && Leaving(was, c, map[], done, qs0, qs)
    ensures forall k :: QueueAt(qs, k) == Besides(QueueAt(qs0, k), c)
    ensures Indexed(was[c := map[]], qs)
  {
    hide Besides, Indexed;
    forall k ensures QueueAt(qs, k) == Besides(QueueAt(qs0, k), c) {
      if k !in was[c] { NotThere(was, qs0, c, k); }
    }
  }

  // ----- clients that wait ----------------------------------------------------------------------------

  class Waiting {
    const blocking: BlockingKeys
    /** bpop.keys of each client. */
    var infos: Infos

    ghost predicate Valid()
      reads this, blocking, blocking.heads.Keys, blocking.owner.Keys
    {
      blocking.Valid() && Indexed(infos, blocking.queues)
    }

    constructor ()
      ensures Valid() && infos == map[] && fresh(blocking) && blocking.queues == map[]
      ensures blocking.heads == map[] && blocking.owner == map[]
    {
      blocking := new BlockingKeys();
      infos := map[];
    }

    /** Nothing but new lists and nodes has come in. */
    twostate predicate Grown()
      reads this, blocking
    {
      && fresh(blocking.heads.Keys - old(blocking.heads.Keys))
      && fresh(blocking.owner.Keys - old(blocking.owner.Keys))
    }

    /** The list of a key gets a node for the client, which remembers it. */
    method Join(c: ClientId, k: Key, after: int)
      requires Valid() && c in infos && k !in infos[c]
      modifies this, blocking, blocking.heads.Keys, blocking.owner.Keys
      ensures Valid() && Grown() && c in infos && k in infos[c] && infos[c][k].after == after
      ensures infos == old(infos)[c := old(infos[c])[k := infos[c][k]]]
      ensures blocking.queues
              == old(blocking.queues)[k := QueueAt(old(blocking.queues), k) + [infos[c][k].listnode]]
    {
      hide Indexed, BlockingKeys.Valid;
      ghost var qs := blocking.queues;
      var node := blocking.Enter(k, c);
      JoinIndexed(infos, qs, c, k, Bkinfo(node, after));
      infos := infos[c := infos[c][k := Bkinfo(node, after)]];
    }

    /** The client leaves the list of a key by its own node; the list goes with its last node. */
    method Leave(c: ClientId, k: Key, todo: map<Key, Bkinfo>)
      requires c in infos && k in todo && blocking.Valid() && Indexed(infos[c := todo], blocking.queues)
      modifies blocking, blocking.heads.Keys, blocking.owner.Keys
      ensures blocking.Valid() && Indexed(infos[c := todo - {k}], blocking.queues)
      ensures blocking.queues == Put(old(blocking.queues), k, Besides(QueueAt(old(blocking.queues), k), c))
      ensures blocking.heads == old(blocking.heads) && blocking.owner == old(blocking.owner)
    {
      hide Indexed, BlockingKeys.Valid;
      ghost var i := OnlyNode(infos[c := todo], blocking.queues, c, k);
      LeaveIndexed(infos[c := todo], blocking.queues, c, k, i);
      assert infos[c := todo][c := todo - {k}] == infos[c := todo - {k}];
      blocking.Exit(k, todo[k].listnode, i);
    }

    /** blockForKeys, the part with the keys: a node at the end of the list of every key, once. */
    method BlockForKeys(c: ClientId, ks: seq<Key>, after: seq<int>)
      requires Valid() && c in infos && infos[c] == map[] && |after| == |ks|
      modifies this, blocking, blocking.heads.Keys, blocking.owner.Keys
      ensures Valid() && Grown() && c in infos && infos == old(infos)[c := infos[c]]
      ensures ForKeys(infos[c], ks, |ks|) && FirstAsked(infos[c], ks, after, |ks|)
      ensures Joined(old(blocking.queues), blocking.queues, infos[c])
    {
      hide Indexed, BlockingKeys.Valid, Joined, ForKeys, FirstAsked, QueueAt;
      ghost var qs := blocking.queues;
      var j := 0;
      NoneJoined(qs, ks, after);
      while j < |ks|
        invariant j <= |ks| && Valid() && Grown() && c in infos && infos == old(infos)[c := infos[c]]
        invariant ForKeys(infos[c], ks, j) && FirstAsked(infos[c], ks, after, j)
        invariant Joined(qs, blocking.queues, infos[c])
      {
        ghost var mine, before := infos[c], blocking.queues;
        if ks[j] in infos[c] {
          SameAgain(mine, ks, after, j);
        } else {
          Join(c, ks[j], after[j]);
          OneMoreKey(mine, ks, after, j, infos[c][ks[j]]);
          JoinedNext(qs, before, mine, ks[j], infos[c][ks[j]]);
        }
        j := j + 1;
      }
    }

    lemma ValidIs()
      ensures Valid() <==> blocking.Valid() && Indexed(infos, blocking.queues)
    {
    }

    /** The loop of unblockClientWaitingData. */
    method LeaveAll(c: ClientId)
      requires Valid() && c in infos
      modifies blocking, blocking.heads.Keys, blocking.owner.Keys
      ensures blocking.Valid() && Indexed(infos[c := map[]], blocking.queues)
      ensures forall k :: QueueAt(blocking.queues, k) == Besides(QueueAt(old(blocking.queues), k), c)
    {
      hide *;
      ValidIs();
      ghost var qs, done := blocking.queues, {};
      var todo := infos[c];
      LeavingStarts(infos, c, qs);
      while todo != map[]
        invariant blocking.Valid() && Leaving(infos, c, todo, done, qs, blocking.queues)
        invariant blocking.heads == old(blocking.heads) && blocking.owner == old(blocking.owner)
        decreases |todo|
      {
        var k :| k in todo;
        ghost var before := blocking.queues;
        LeavingMeans(infos, c, todo, done, qs, before);
        Leave(c, k, todo);
        LeavingNext(infos, c, todo, done, qs, before, blocking.queues, k);
        todo, done := todo - {k}, done + {k};
      }
      AllLeft(infos, c, done, qs, blocking.queues);
    }

    /** unblockClientWaitingData: the client leaves the list of every key it waits for, by the
        handle it was given, wherever the node stands by now. */
    method UnblockClientWaitingData(c: ClientId)
      requires Valid() && c in infos
      modifies this, blocking, blocking.heads.Keys, blocking.owner.Keys
      ensures Valid() && infos == old(infos)[c := map[]]
      ensures forall k :: QueueAt(blocking.queues, k) == Besides(QueueAt(old(blocking.queues), k), c)
    {
      hide *;
      LeaveAll(c);
      infos := infos[c := map[]];
      ValidIs();
    }

    /** A round in which the first client waits for another type: all handles stay good. */
    method RotateHeadToTail(k: Key)
      requires Valid() && k in blocking.queues
      modifies blocking, blocking.heads.Keys, blocking.owner.Keys
      ensures Valid()
      ensures blocking.queues
              == old(blocking.queues)[k := old(blocking.queues)[k][1..] + [old(blocking.queues)[k][0]]]
    {
      hide BlockingKeys.Valid;
      RotateIndexed(infos, blocking.queues, k);
      blocking.Rotate(k);
    }
  }

  lemma NotThere(infos: Infos, qs: Queues, c: ClientId, k: Key)
    requires Indexed(infos, qs) && c in infos && k !in infos[c]
    ensures Besides(QueueAt(qs, k), c) == QueueAt(qs, k)
  {
    forall n | n in QueueAt(qs, k) ensures n.value != c { assert Remembers(infos, k, n); }
    BesidesAll(QueueAt(qs, k), c);
  }

  // ----- the numbered nodes of Blocked --------------------------------------------------------------------

  function ClientsOf(q: seq<B.Node>): (cs: seq<ClientId>)
    ensures |cs| == |q| && forall i :: 0 <= i < |q| ==> cs[i] == q[i].client
  {
    seq(|q|, i requires 0 <= i < |q| => q[i].client)
  }

  /** The lists are those of Blocked: the same clients in the same order for every key. */
  ghost predicate SameClients(w: map<Key, seq<B.Node>>, qs: Queues)
  {
    forall k :: ClientsOf(B.QueueOf(w, k)) == Values(QueueAt(qs, k))
  }

  /** What Blocked.Server says of blocking a client, BlockForKeys does to the linked lists, */
  lemma SameAfterBlocking(w: map<Key, seq<B.Node>>, w': map<Key, seq<B.Node>>, qs: Queues, qs': Queues, c: ClientId,
                          ids: map<Key, B.Info>, mine: map<Key, Bkinfo>)
    requires SameClients(w, qs) && ids.Keys == mine.Keys && Joined(qs, qs', mine)
    requires forall k :: k in mine ==> mine[k].listnode.value == c
    requires forall k :: B.QueueOf(w', k) == B.QueueOf(w, k) + if k in ids then [B.Node(ids[k].node, c)] else []
    ensures SameClients(w', qs')
  {
    hide B.QueueOf, QueueAt;
    forall k ensures ClientsOf(B.QueueOf(w', k)) == Values(QueueAt(qs', k)) {
      assert ClientsOf(B.QueueOf(w, k)) == Values(QueueAt(qs, k));
      if k in mine {
        assert ClientsOf(B.QueueOf(w, k) + [B.Node(ids[k].node, c)]) == ClientsOf(B.QueueOf(w, k)) + [c];
        assert Values(QueueAt(qs, k) + [mine[k].listnode]) == Values(QueueAt(qs, k)) + [c];
      } else {
        assert B.QueueOf(w', k) == B.QueueOf(w, k) && QueueAt(qs', k) == QueueAt(qs, k);
      }
    }
  }

  /** and what it says of unblocking one, UnblockClientWaitingData. */
  lemma SameAfterUnblocking(w: map<Key, seq<B.Node>>, w': map<Key, seq<B.Node>>, qs: Queues, qs': Queues, c: ClientId)
    requires SameClients(w, qs)
    requires forall k :: B.QueueOf(w', k) == B.DropClient(B.QueueOf(w, k), c)
    requires forall k :: QueueAt(qs', k) == Besides(QueueAt(qs, k), c)
    ensures SameClients(w', qs')
  {
    hide B.QueueOf, QueueAt, Besides, B.DropClient;
    forall k ensures ClientsOf(B.QueueOf(w', k)) == Values(QueueAt(qs', k)) {
      SameDrop(B.QueueOf(w, k), QueueAt(qs, k), c);
    }
  }

  lemma {:induction false} SameDrop(q: seq<B.Node>, ns: seq<Waiter>, c: ClientId)
    requires ClientsOf(q) == Values(ns)
    ensures ClientsOf(B.DropClient(q, c)) == Values(Besides(ns, c))
    decreases |q|
  {
    if q != [] {
      assert q[0].client == ClientsOf(q)[0] == Values(ns)[0] == ns[0].value;
      assert ClientsOf(q[1..]) == ClientsOf(q)[1..] && Values(ns[1..]) == Values(ns)[1..];
      SameDrop(q[1..], ns[1..], c);
    }
  }
}
