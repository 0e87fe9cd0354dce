/** The replies to the pieces of a split command become the reply to the command, whatever
    order they arrive in. */
module ReplyMerge {
  import opened Bytes
  import opened Options
  import opened RequestFormat
  import F = ReplyFormat
  import Q = RequestParser

  // ----- one reply and its merging, as values ----------------------------------------------------

  /** A reply as predixy keeps it: type, number, and the bytes of head and body. */
  datatype Res = Res(kind: F.Kind, n: int, head: seq<byte>, body: seq<byte>)

  predicate IsError(r: Res) { r.kind == F.ErrorReply }

  /** The commands whose pieces keep their own replies. */
  predicate KeepsOwn(c: Cmd) { c == Mget || ModeOf(c) == SMultiKey }

  /** The commands whose replies are counts. */
  predicate Counts(c: Cmd) { c == Del || c == Exists || c == Touch || c == Unlink }

  const CUT_HEAD: seq<byte> := [STAR, ZERO + 1, CR, LF]
  const NIL_ELEMENT: seq<byte> := [DOLLAR, MINUS, ZERO + 1, CR, LF]

  function ArrayHead(n: nat): seq<byte> { [STAR] + (Digits(n) + CRLF) }

  /** What adjustForLeader makes of the reply to a piece of MGET: its one element, and before
      the leader's the head of an array of all. */
  function Element(r: Res, total: nat, leads: bool): Res
  {
    if r.kind == F.ArrayReply then
      Res(r.kind, r.n, if leads then ArrayHead(total) else r.head, if |r.body| > 4 then r.body[4..] else [])
    else Res(F.ArrayReply, r.n, r.head, if leads then ArrayHead(total) + NIL_ELEMENT else NIL_ELEMENT)
  }

  /** What a reply that is not the first adds to the leader's number. */
  function Contribution(r: Res): int { if r.kind == F.IntegerReply && r.n > 0 then r.n else 0 }

  function Counted(lead: Option<Res>, r: Res): Option<Res>
  {
    if lead == None then None else Some(lead.value.(n := lead.value.n + Contribution(r)))
  }

  /** Response::set(num) */
  function SetNumber(r: Res, n: int): Res { r.(kind := F.IntegerReply, n := n, body := [COLON] + (Decimal(n) + CRLF)) }

  /** adjustForLeader and setResponse, for the commands whose leader keeps the one reply. */
  function Merge(c: Cmd, lead: Option<Res>, r: Res, all: bool): Res
  {
    if c == Mset then
      if lead == None || (IsError(r) && !IsError(lead.value)) then r else lead.value
    else if c == Msetnx then
      if lead == None || (!IsError(lead.value) && (IsError(r) || r.n == 0)) then r else Counted(lead, r).value
    else
      var l := if lead == None then r else Counted(lead, r).value;
      if all then SetNumber(l, l.n) else l
  }

  /** The replies in the order they arrive, out of `total`. */
  function MergeAll(c: Cmd, total: nat, rs: seq<Res>): Option<Res>
    decreases |rs|
  {
    if rs == [] then None else
    var k := |rs| - 1;
    Some(Merge(c, MergeAll(c, total, rs[..k]), rs[k], |rs| == total))
  }

  // ----- counts -----------------------------------------------------------------------------------------

  function Sum(rs: seq<Res>): int
    decreases |rs|
  {
    if rs == [] then 0 else Sum(rs[..|rs| - 1]) + Contribution(rs[|rs| - 1])
  }

  lemma {:induction false} CountSoFar(c: Cmd, total: nat, rs: seq<Res>)
    requires Counts(c) && 0 < |rs| <= total
    ensures MergeAll(c, total, rs) != None
    ensures MergeAll(c, total, rs).value.n == rs[0].n - Contribution(rs[0]) + Sum(rs)
    decreases |rs|
  {
    var k := |rs| - 1;
    if k > 0 {
      CountSoFar(c, total, rs[..k]);
      assert rs[..k][0] == rs[0];
    } else {
      assert rs[..k] == [];
    }
  }

  /** DEL, EXISTS, TOUCH and UNLINK end as one integer. It is the sum of the positive integer
      replies iff the reply that arrived first counts for what it says: the number of that
      one is taken whatever its type. */
  lemma CountIsSum(c: Cmd, rs: seq<Res>)
    requires Counts(c) && rs != []
    ensures var n := rs[0].n - Contribution(rs[0]) + Sum(rs);
            MergeAll(c, |rs|, rs) == Some(Res(F.IntegerReply, n, rs[0].head, F.Encode(F.Integer(n))))
    ensures MergeAll(c, |rs|, rs).value.n == Sum(rs) <==> rs[0].n == Contribution(rs[0])
  {
    hide Sum, Contribution, Decimal, MergeAll, Merge;
    CountSoFar(c, |rs|, rs);
    CountHead(c, |rs|, rs);
    CountDone(c, rs);
  }

  lemma CountDone(c: Cmd, rs: seq<Res>)
    requires Counts(c) && rs != [] && MergeAll(c, |rs|, rs) != None
    ensures var r := MergeAll(c, |rs|, rs).value; r.kind == F.IntegerReply && r.body == F.Encode(F.Integer(r.n))
  {
    hide Merge, Decimal;
    var k := |rs| - 1;
    DoneShape(c, MergeAll(c, |rs|, rs[..k]), rs[k]);
  }

  lemma DoneShape(c: Cmd, lead: Option<Res>, r: Res)
    requires Counts(c)
    ensures var m := Merge(c, lead, r, true); m.kind == F.IntegerReply && m.body == F.Encode(F.Integer(m.n))
  {
    hide Contribution, Decimal;
  }

  lemma {:induction false} CountHead(c: Cmd, total: nat, rs: seq<Res>)
    requires Counts(c) && 0 < |rs| <= total
    ensures MergeAll(c, total, rs) != None && MergeAll(c, total, rs).value.head == rs[0].head
    decreases |rs|
  {
    var k := |rs| - 1;
    if k > 0 {
      CountHead(c, total, rs[..k]);
      assert rs[..k][0] == rs[0];
    } else {
      assert rs[..k] == [];
    }
  }

  /** So a bulk string that arrives first is counted with its length. */
  lemma FirstBulkCounts()
    ensures var bulk := Res(F.StringReply, 5, [], F.Encode(F.String([1, 2, 3, 4, 5])));
            var one := Res(F.IntegerReply, 1, [], F.Encode(F.Integer(1)));
            && Sum([bulk, one]) == 1 == Sum([one, bulk])
            && MergeAll(Del, 2, [bulk, one]).value.n == 6 && MergeAll(Del, 2, [one, bulk]).value.n == 1
  {
    var bulk := Res(F.StringReply, 5, [], F.Encode(F.String([1, 2, 3, 4, 5])));
    var one := Res(F.IntegerReply, 1, [], F.Encode(F.Integer(1)));
    assert [bulk, one][..1] == [bulk] && [one, bulk][..1] == [one] && [bulk][..0] == [] && [one][..0] == [];
    CountIsSum(Del, [bulk, one]);
    CountIsSum(Del, [one, bulk]);
  }

  lemma {:induction false} SumAppend(a: seq<Res>, b: seq<Res>)
    ensures Sum(a + b) == Sum(a) + Sum(b)
    decreases |b|
  {
    if b == [] {
      assert a + b == a;
    } else {
      assert (a + b)[..|a + b| - 1] == a + b[..|b| - 1];
      SumAppend(a, b[..|b| - 1]);
    }
  }

  lemma SumWithout(b: seq<Res>, i: nat)
    requires i < |b|
    ensures Sum(b) == Sum(b[..i] + b[i + 1..]) + Contribution(b[i])
  {
    hide Sum, Contribution;
    var p, x, q := b[..i], [b[i]], b[i + 1..];
    SumOne(b[i]);
    assert b == (p + x) + q;
    SumAppend(p + x, q);
    SumAppend(p, x);
    SumAppend(p, q);
  }

  lemma SumOne(r: Res)
    ensures Sum([r]) == Contribution(r)
  {
    assert [r][..0] == [];
  }

  lemma BagWithout(b: seq<Res>, i: nat)
    requires i < |b|
    ensures multiset(b[..i] + b[i + 1..]) == multiset(b) - multiset{b[i]}
  {
    assert b == b[..i] + [b[i]] + b[i + 1..];
  }

  /** The sum does not depend on the order. */
  lemma {:induction false} SumOfPermutation(a: seq<Res>, b: seq<Res>)
    requires multiset(a) == multiset(b)
    ensures Sum(a) == Sum(b)
    decreases |a|
  {
    if a == [] {
      assert |b| == |multiset(b)| == 0;
    } else {
      var k := |a| - 1;
      SumWithout(a, k);
      BagWithout(a, k);
      assert a[..k] + a[k + 1..] == a[..k];
      assert a[k] in multiset(b);
      var i :| 0 <= i < |b| && b[i] == a[k];
      SumWithout(b, i);
      BagWithout(b, i);
      SumOfPermutation(a[..k], b[..i] + b[i + 1..]);
    }
  }

  /** The same replies in another order give the same count, if each counts for what it says. */
  lemma {:induction false} CountInAnyOrder(c: Cmd, a: seq<Res>, b: seq<Res>)
    requires Counts(c) && a != [] && multiset(a) == multiset(b)
    requires forall i :: 0 <= i < |a| ==> a[i].n == Contribution(a[i]) && a[i].head == []
    ensures MergeAll(c, |a|, a) == MergeAll(c, |b|, b)
  {
    SumOfPermutation(a, b);
    assert |a| == |multiset(a)| == |multiset(b)| == |b|;
    assert b[0] in multiset(a);
    CountIsSum(c, a);
    CountIsSum(c, b);
  }

  // ----- MSET and MSETNX -------------------------------------------------------------------------------

  /** What is left of a reply while others are counted into it. */
  predicate SameReply(r: Res, l: Res) { r.kind == l.kind && r.head == l.head && r.body == l.body }

  /** MSET ends with an error iff some piece failed, and then with the first error. */
  lemma {:induction false} MsetReply(total: nat, rs: seq<Res>) returns (j: nat)
    requires rs != []
    ensures j < |rs| && MergeAll(Mset, total, rs) == Some(rs[j])
    ensures if exists i :: 0 <= i < |rs| && IsError(rs[i]) then IsError(rs[j]) && forall i :: 0 <= i < j ==>
            !IsError(rs[i]) else j == 0
    decreases |rs|
  {
    var k := |rs| - 1;
    if k == 0 {
      j := 0;
      assert rs[..k] == [];
    } else {
      var m := MsetReply(total, rs[..k]);
      assert rs[..k][m] == rs[m];
      j := if IsError(rs[k]) && !IsError(rs[m]) then k else m;
    }
  }

  /** An error before a 0, a 0 before a 1. */
  function Rank(r: Res): nat { if IsError(r) then 2 else if r.n == 0 then 1 else 0 }

  /** MSETNX ends with the bytes of a reply of the highest rank among all: a failed piece
      wins over one that did not set, and that over those that did. */
  lemma {:induction false} MsetnxReply(total: nat, rs: seq<Res>) returns (j: nat)
    requires rs != []
    ensures j < |rs| && MergeAll(Msetnx, total, rs) != None && SameReply(MergeAll(Msetnx, total, rs).value, rs[j])
    ensures forall i :: 0 <= i < |rs| ==> Rank(rs[i]) <= Rank(rs[j])
    decreases |rs|
  {
    var k := |rs| - 1;
    if k == 0 {
      j := 0;
      assert rs[..k] == [];
    } else {
      var m := MsetnxReply(total, rs[..k]);
      assert rs[..k][m] == rs[m];
      forall i | 0 <= i < k ensures Rank(rs[i]) <= Rank(rs[m]) { assert rs[..k][i] == rs[i]; }
      j := if !IsError(rs[m]) && Rank(rs[k]) > 0 then k else m;
    }
  }

  // ----- MGET -------------------------------------------------------------------------------------------------

  /** The bytes of all pieces' replies, in the order of the keys. */
  function Output(own: seq<Res>, total: nat): seq<byte>
    decreases |own|
  {
    if own == [] then [] else
    var k := |own| - 1;
    var e := Element(own[k], total, k == 0);
    Output(own[..k], total) + (e.head + e.body)
  }

  /** What a server answers to the piece with one key: an array of one element, or not an
      array; then the key counts as missing. */
  ghost predicate Answers(r: Res, e: F.Reply)
  {
    r.head == [] && if r.kind == F.ArrayReply then r.body == F.Encode(F.Array([e])) else e == F.Nil
  }

  lemma {:induction false} EncodeAllAppend(a: seq<F.Reply>, b: seq<F.Reply>)
    ensures F.EncodeAll(a + b) == F.EncodeAll(a) + F.EncodeAll(b)
    decreases |a|
  {
    if a == [] {
      assert a + b == b;
    } else {
      assert (a + b)[1..] == a[1..] + b;
      EncodeAllAppend(a[1..], b);
    }
  }

  lemma ElementBytes(r: Res, e: F.Reply, total: nat, leads: bool)
    requires Answers(r, e)
    ensures var x := Element(r, total, leads); x.head + x.body == (if leads then ArrayHead(total) else []) + F.Encode(e)
  {
    hide F.Encode, Digits;
    OneElement(e);
    NilBytes();
    if r.kind == F.ArrayReply {
      assert (CUT_HEAD + F.Encode(e))[4..] == F.Encode(e);
    }
  }

  lemma OneElement(e: F.Reply)
    ensures F.Encode(F.Array([e])) == CUT_HEAD + F.Encode(e) && F.Encode(e) != []
  {
    assert [e][1..] == [];
    assert F.EncodeAll([e]) == F.Encode(e) + F.EncodeAll([]);
    assert Digits(1) == [ZERO + 1];
    assert [STAR] + ([ZERO + 1] + CRLF) == CUT_HEAD;
  }

  lemma NilBytes()
    ensures F.Encode(F.Nil) == NIL_ELEMENT
  {
    assert Digits(1) == [ZERO + 1];
    assert Decimal(-1) == [MINUS] + Digits(1);
  }

  /** The replies to the keys of MGET, in the order of the keys, make one array of as many
      elements as there are keys. */
  lemma {:induction false} MgetReply(own: seq<Res>, es: seq<F.Reply>, total: nat)
    requires own != [] && |es| == |own| && forall i :: 0 <= i < |own| ==> Answers(own[i], es[i])
    ensures Output(own, total) == ArrayHead(total) + F.EncodeAll(es)
    ensures total == |own| ==> Output(own, total) == F.Encode(F.Array(es))
    decreases |own|
  {
    hide F.Encode, F.EncodeAll, Element, Answers, ArrayHead;
    var k := |own| - 1;
    ElementBytes(own[k], es[k], total, k == 0);
    LastElement(es);
    if k == 0 {
      NoElements(own[..k], total);
      assert es[..k] == [] && own[..k] == [];
      assert [] + (ArrayHead(total) + F.Encode(es[0])) == ArrayHead(total) + ([] + F.Encode(es[0]));
    } else {
      MgetReply(own[..k], es[..k], total);
      assert [] + F.Encode(es[k]) == F.Encode(es[k]);
      assert ArrayHead(total) + F.EncodeAll(es[..k]) + F.Encode(es[k])
             == ArrayHead(total) + (F.EncodeAll(es[..k]) + F.Encode(es[k]));
    }
    ArrayBytes(es, total);
  }

  lemma NoElements(own: seq<Res>, total: nat)
    ensures F.EncodeAll([]) == [] && (own == [] ==> Output(own, total) == [])
  {
  }

  lemma {:induction false} LastElement(es: seq<F.Reply>)
    requires es != []
    ensures F.EncodeAll(es) == F.EncodeAll(es[..|es| - 1]) + F.Encode(es[|es| - 1])
  {
    hide F.Encode;
    var k := |es| - 1;
    EncodeAllAppend(es[..k], [es[k]]);
    assert es == es[..k] + [es[k]] && [es[k]][1..] == [];
    assert F.EncodeAll([es[k]]) == F.Encode(es[k]) + F.EncodeAll([]);
  }

  lemma ArrayBytes(es: seq<F.Reply>, total: nat)
    ensures total == |es| ==> F.Encode(F.Array(es)) == ArrayHead(total) + F.EncodeAll(es)
  {
  }

  // ----- MGET, whatever the servers answer --------------------------------------------------------------

  /** What the parser recorded of the reply v. */
  ghost predicate Prints(r: Res, v: F.Reply)
  {
    F.Printable(v) && r.head == [] && r.body == F.Encode(v) && r.kind == F.KindOf(v)
  }

  /** What is left of the reply to a piece: an array without its first four bytes, or nil. */
  function Part(v: F.Reply): seq<byte>
  {
    if F.KindOf(v) != F.ArrayReply then F.Encode(F.Nil)
    else if |F.Encode(v)| > 4 then F.Encode(v)[4..] else []
  }

  function Parts(vs: seq<F.Reply>): seq<byte>
  {
    if vs == [] then [] else Parts(vs[..|vs| - 1]) + Part(vs[|vs| - 1])
  }

  /** The first four bytes are the array's head. */
  predicate ShortHead(v: F.Reply) { v != F.NilArray && (v.Array? ==> |v.elements| <= 9) }

  function Elements(v: F.Reply): seq<F.Reply> { if v.Array? then v.elements else [F.Nil] }

  function AllElements(vs: seq<F.Reply>): seq<F.Reply>
  {
    if vs == [] then [] else AllElements(vs[..|vs| - 1]) + Elements(vs[|vs| - 1])
  }

  /** How many elements the pieces have in all. */
  function Width(vs: seq<F.Reply>): nat
  {
    if vs == [] then 0 else Width(vs[..|vs| - 1]) + |Elements(vs[|vs| - 1])|
  }

  predicate IsTag(b: byte) { b in {PLUS, MINUS, COLON, DOLLAR, STAR} }

  lemma HeadDigits(n: nat)
    ensures n <= 9 ==> |Digits(n)| == 1
    ensures n > 9 ==> |Digits(n)| >= 2
  {
  }

  /** The cut leaves the elements, or something that no reply begins with. */
  lemma PartIs(v: F.Reply)
    requires F.Printable(v)
    ensures ShortHead(v) ==> Part(v) == F.EncodeAll(Elements(v))
    ensures !ShortHead(v) ==> Part(v) != [] && !IsTag(Part(v)[0])
  {
    hide F.EncodeAll;
    match v
    case Array(es) =>
      HeadDigits(|es|);
      LongHead(|es|, F.EncodeAll(es));
    case NilArray => NilArrayPart();
    case _ => NilElement();
  }

  lemma NilElement()
    ensures F.EncodeAll([F.Nil]) == F.Encode(F.Nil)
  {
    assert [F.Nil][1..] == [] && F.EncodeAll([]) == [];
  }

  lemma NilArrayPart()
    ensures Part(F.NilArray) == [LF]
  {
    assert Digits(1) == [ZERO + 1] && Decimal(-1) == [MINUS] + Digits(1);
    assert F.Encode(F.NilArray) == [STAR, MINUS, ZERO + 1, CR, LF];
  }

  lemma LongHead(n: nat, rest: seq<byte>)
    ensures var b := [STAR] + (Digits(n) + CRLF) + rest;
            && (|Digits(n)| == 1 ==> b[4..] == rest)
            && (|Digits(n)| >= 2 ==> |b| > 4 && !IsTag(b[4]))
  {
    var d := Digits(n) + CRLF;
    if |Digits(n)| >= 2 {
      var b := [STAR] + d + rest;
      assert b[4] == d[3];
      assert d[3] == if |Digits(n)| > 3 then Digits(n)[3] else CRLF[3 - |Digits(n)|];
    }
  }

  lemma {:induction false} PartsAre(vs: seq<F.Reply>)
    requires F.AllPrintable(vs) && forall i :: 0 <= i < |vs| ==> ShortHead(vs[i])
    ensures Parts(vs) == F.EncodeAll(AllElements(vs)) && F.AllPrintable(AllElements(vs))
    ensures |AllElements(vs)| == Width(vs)
  {
    hide F.Encode, Part, ShortHead, F.Printable;
    if vs == [] {
      NoElements([], 0);
    } else {
      var k := |vs| - 1;
      PartsAre(vs[..k]);
      PartIs(vs[k]);
      EncodeAllAppend(AllElements(vs[..k]), Elements(vs[k]));
      ElementsPrintable(vs[k]);
    }
  }

  lemma ElementsPrintable(v: F.Reply)
    requires F.Printable(v)
    ensures F.AllPrintable(Elements(v))
  {
  }

  lemma {:induction false} PartsSplit(vs: seq<F.Reply>, j: nat) returns (rest: seq<byte>)
    requires j < |vs|
    ensures Parts(vs) == Parts(vs[..j]) + (Part(vs[j]) + rest)
    decreases |vs|
  {
    hide Part;
    var k := |vs| - 1;
    if j == k {
      rest := [];
      assert Part(vs[j]) + [] == Part(vs[j]);
    } else {
      var r := PartsSplit(vs[..k], j);
      assert vs[..k][..j] == vs[..j];
      rest := r + Part(vs[k]);
      F.Group(Parts(vs[..j]), Part(vs[j]) + r, Part(vs[k]));
      F.Group(Part(vs[j]), r, Part(vs[k]));
    }
  }

  /** The bytes are those of one array of n elements. */
  ghost predicate OneArray(bytes: seq<byte>, n: nat)
  {
    exists es: seq<F.Reply> :: |es| == n && F.AllPrintable(es) && bytes == F.Encode(F.Array(es))
  }

  /** The output of MGET is one array of as many elements as keys iff no reply to a piece is a
      null array or longer than nine, and all together have as many elements as there are keys. */
  lemma MgetExactly(own: seq<Res>, vs: seq<F.Reply>)
    requires own != [] && |vs| == |own| && forall i :: 0 <= i < |own| ==> Prints(own[i], vs[i])
    ensures OneArray(Output(own, |own|), |own|) <==>
              (forall i :: 0 <= i < |vs| ==> ShortHead(vs[i])) && Width(vs) == |vs|
  {
    hide F.Encode, Output, Parts, Part, ShortHead, Width, AllElements, F.Printable, ArrayHead;
    OutputIs(own, vs, |own|);
    var n, out := |own|, Output(own, |own|);
    if forall i :: 0 <= i < |vs| ==> ShortHead(vs[i]) {
      PartsAre(vs);
      var all := AllElements(vs);
      ArrayBytes(all, n);
      if OneArray(out, n) {
        var es :| |es| == n && F.AllPrintable(es) && out == F.Encode(F.Array(es));
        SameParts(es, out, n, Parts(vs));
        assert F.EncodeAll(all) + [] == F.EncodeAll(es);
        F.HowMany(all, es, []);
      }
    } else if OneArray(out, n) {
      var es :| |es| == n && F.AllPrintable(es) && out == F.Encode(F.Array(es));
      SameParts(es, out, n, Parts(vs));
      NotTheElements(vs, es);
    }
  }

  lemma SameParts(es: seq<F.Reply>, out: seq<byte>, n: nat, parts: seq<byte>)
    requires |es| == n && out == F.Encode(F.Array(es)) && out == ArrayHead(n) + parts
    ensures parts == F.EncodeAll(es)
  {
    hide F.Encode, ArrayHead;
    ArrayBytes(es, n);
    F.Strip(ArrayHead(n), ArrayHead(n), parts, F.EncodeAll(es));
  }

  /** A head of more than four bytes leaves something that no row of replies has there. */
  lemma NotTheElements(vs: seq<F.Reply>, es: seq<F.Reply>)
    requires F.AllPrintable(vs) && F.AllPrintable(es) && exists i :: 0 <= i < |vs| && !ShortHead(vs[i])
    ensures Parts(vs) != F.EncodeAll(es)
  {
    hide Parts, Part, ShortHead, F.Printable, AllElements;
    var j := FirstLong(vs);
    var rest := PartsSplit(vs, j);
    PartsAre(vs[..j]);
    PartIs(vs[j]);
    if Parts(vs) == F.EncodeAll(es) { F.HowMany(AllElements(vs[..j]), es, Part(vs[j]) + rest); }
  }

  lemma {:induction false} FirstLong(vs: seq<F.Reply>) returns (j: nat)
    requires exists i :: 0 <= i < |vs| && !ShortHead(vs[i])
    ensures j < |vs| && !ShortHead(vs[j]) && forall i :: 0 <= i < j ==> ShortHead(vs[i])
  {
    hide ShortHead;
    j := 0;
    while ShortHead(vs[j])
      invariant j < |vs| && forall i :: 0 <= i < j ==> ShortHead(vs[i])
      decreases |vs| - j
    {
      j := j + 1;
    }
  }

  lemma {:induction false} OutputIs(own: seq<Res>, vs: seq<F.Reply>, total: nat)
    requires |vs| == |own| && forall i :: 0 <= i < |own| ==> Prints(own[i], vs[i])
    ensures F.AllPrintable(vs) && Output(own, total) == (if own == [] then [] else ArrayHead(total)) + Parts(vs)
    decreases |own|
  {
    hide F.Encode, Part, ArrayHead, F.Printable;
    if own != [] {
      var k := |own| - 1;
      OutputIs(own[..k], vs[..k], total);
      PieceBytes(own[k], vs[k], total, k == 0);
      F.Group(ArrayHead(total), Parts(vs[..k]), Part(vs[k]));
    }
  }

  lemma PieceBytes(r: Res, v: F.Reply, total: nat, leads: bool)
    requires Prints(r, v)
    ensures F.Printable(v)
    ensures var x := Element(r, total, leads); x.head + x.body == (if leads then ArrayHead(total) else []) + Part(v)
  {
    hide F.Encode, ArrayHead;
    NilBytes();
  }

  /** Each key gets exactly one element iff its reply is no array or one of length one. */
  lemma OneEach(v: F.Reply)
    requires F.Printable(v)
    ensures (exists e: F.Reply :: F.Printable(e) && Part(v) == F.Encode(e)) <==>
              (F.KindOf(v) == F.ArrayReply ==> v.Array? && |v.elements| == 1)
  {
    hide F.Encode, Part;
    PartIs(v);
    if exists e: F.Reply :: F.Printable(e) && Part(v) == F.Encode(e) {
      var e :| F.Printable(e) && Part(v) == F.Encode(e);
      F.Shape(e);
      OneElement(e);
      AllOfOne(e);
      if ShortHead(v) {
        ElementsPrintable(v);
        assert F.EncodeAll(Elements(v)) + [] == F.EncodeAll([e]);
        F.HowMany(Elements(v), [e], []);
      }
    }
    if v.Array? && |v.elements| == 1 {
      AllOfOne(v.elements[0]);
      assert v.elements == [v.elements[0]];
    }
  }

  lemma AllOfOne(e: F.Reply)
    ensures F.EncodeAll([e]) == F.Encode(e)
  {
    assert [e][1..] == [] && F.EncodeAll([]) == [];
  }

  /** Two keys: an empty array for one leaves an array that announces two elements and has one;
      but with two for the other it is whole again, and tells both values to the wrong keys. */
  lemma EmptyArrayCounts(e: F.Reply, f: F.Reply)
    requires F.Printable(e) && F.Printable(f)
    ensures var none, one, two := Printed(F.Array([])), Printed(F.Array([e])), Printed(F.Array([e, f]));
            && !OneArray(Output([none, one], 2), 2)
            && Output([none, two], 2) == F.Encode(F.Array([e, f]))
  {
    hide F.Encode, Output, OneArray, ArrayHead, Parts, Part, Width;
    var a, b, c := F.Array([]), F.Array([e]), F.Array([e, f]);
    OfTwo(a, b);
    MgetExactly([Printed(a), Printed(b)], [a, b]);
    OfTwo(a, c);
    OutputIs([Printed(a), Printed(c)], [a, c], 2);
    PartIs(a);
    PartIs(c);
    ArrayBytes([e, f], 2);
  }

  lemma OfTwo(v: F.Reply, w: F.Reply)
    ensures Parts([v, w]) == Part(v) + Part(w)
    ensures Width([v, w]) == |Elements(v)| + |Elements(w)|
  {
    hide Part;
    assert [v, w][..1] == [v] && [v][..0] == [];
    assert Parts([v]) == Parts([]) + Part(v) && Parts([]) == [];
    assert Width([v]) == Width([]) + |Elements(v)|;
  }

  function Printed(v: F.Reply): Res { Res(F.KindOf(v), F.NumberOf(v), [], F.Encode(v)) }

  // ----- the objects --------------------------------------------------------------------------------------------

  class Response {
    var mType: F.Kind
    var mInteger: int
    var mHead: seq<byte>
    var mRes: seq<byte>

    ghost function View(): Res
      reads this
    {
      Res(mType, mInteger, mHead, mRes)
    }

    constructor (r: Res)
      ensures View() == r
    {
      mType, mInteger, mHead, mRes := r.kind, r.n, r.head, r.body;
    }

    /** Response::set(num) */
    method SetInteger(num: int)
      modifies this
      ensures View() == SetNumber(old(View()), num)
    {
      mType, mInteger := F.IntegerReply, num;
      mRes := [COLON] + (Decimal(num) + CRLF);
    }

    /** Response::adjustForLeader */
    method AdjustForLeader(req: Request)
      requires req.Leader() != null && (req.Leader().mRes != null ==> req.Leader().mRes != this)
      modifies this, if req.Leader().mRes == null then {} else {req.Leader().mRes}
      ensures View() == if req.cmd == Mget then Element(old(View()), req.Leader().mFollowers, req.Leader() == req)
              else old(View())
      ensures var l := req.Leader().mRes;
              l != null ==>
                l.View() == if req.cmd == Msetnx || Counts(req.cmd)
                  then old(l.View()).(n := old(l.mInteger) + Contribution(old(View()))) else old(l.View())
    {
      var leader := req.Leader();
      if req.cmd == Mget {
        if mType == F.ArrayReply {
          mRes := if |mRes| > 4 then mRes[4..] else [];
          if leader == req { mHead := ArrayHead(req.mFollowers); }
        } else {
          mType := F.ArrayReply;
          if leader == req {
            mRes := ArrayHead(req.mFollowers) + NIL_ELEMENT;
          } else {
            mRes := NIL_ELEMENT;
          }
        }
      } else if req.cmd == Msetnx || Counts(req.cmd) {
        var r := leader.mRes;
        if r != null && mType == F.IntegerReply && mInteger > 0 {
          r.mInteger := r.mInteger + mInteger;
        }
      }
    }
  }

  class Request {
    const cmd: Cmd
    var mRes: Response?
    var mDone: bool
    var mFollowers: nat
    var mFollowersDone: nat
    var mLeader: Request?

    constructor (cmd: Cmd, followers: nat, leader: Request?)
      ensures this.cmd == cmd && mRes == null && !mDone && mFollowers == followers && mFollowersDone == 0
      ensures mLeader == leader
    {
      this.cmd := cmd;
      mRes, mDone, mFollowers, mFollowersDone, mLeader := null, false, followers, 0, leader;
    }

    /** Request::leader */
    function Leader(): Request?
      reads this
    {
      if mFollowers > 0 then this else mLeader
    }

    /** Request::isDone */
    predicate IsDone()
      reads this
    {
      if mFollowers > 0 && !KeepsOwn(cmd) then mFollowers == mFollowersDone else mDone
    }

    /** Request::setResponse. `lead` is the leader's reply as adjustForLeader left it. */
    method SetResponse(res: Response)
      requires Leader() != null && Leader().cmd == cmd && Leader().mFollowers > 0
      requires (Leader().mRes != null ==> Leader().mRes != res)
      modifies this, Leader(), res, if Leader().mRes == null then {} else {Leader().mRes}
      ensures mDone && Leader() == old(Leader()) && Leader().mFollowersDone == old(Leader().mFollowersDone) + 1
      ensures Leader().mFollowers == old(Leader().mFollowers)
      ensures (Leader() != this ==> Leader().mDone == old(Leader().mDone))
      ensures mLeader == old(mLeader) && mFollowers == old(mFollowers)
      ensures KeepsOwn(cmd) ==>
                && mRes == res && res.View() == old(res.View())
                && (Leader() != this ==> Leader().mRes == old(Leader().mRes) && LeadView() == old(LeadView()))
      ensures !KeepsOwn(cmd) ==>
                && Leader().mRes != null && (Leader().mRes == res || Leader().mRes == old(Leader().mRes))
                && (Leader() != this ==> mRes == old(mRes))
                && Leader().mRes.View() == Kept(cmd, old(LeadView()), old(res.View()),
                                                Leader().mFollowers == Leader().mFollowersDone)
    {
      mDone := true;
      var ld := Leader();
      ld.mFollowersDone := ld.mFollowersDone + 1;
      if KeepsOwn(cmd) {
        mRes := res;
      } else if cmd == Mset {
        if ld.mRes != null {
          if res.mType == F.ErrorReply && ld.mRes.mType != F.ErrorReply { ld.mRes := res; }
        } else {
          ld.mRes := res;
        }
      } else if cmd == Msetnx {
        if ld.mRes != null {
          if ld.mRes.mType != F.ErrorReply && (res.mType == F.ErrorReply || res.mInteger == 0) { ld.mRes := res; }
        } else {
          ld.mRes := res;
        }
      } else {
        if ld.mRes == null { ld.mRes := res; }
        if ld.IsDone() { ld.mRes.SetInteger(ld.mRes.mInteger); }
      }
    }

    /** The leader's reply, if it has one. */
    ghost function LeadView(): Option<Res>
      requires Leader() != null
      reads this, Leader(), if Leader() == null || Leader().mRes == null then {} else {Leader().mRes}
    {
      if Leader().mRes == null then None else Some(Leader().mRes.View())
    }

    /** A reply arrives: adjustForLeader, then setResponse. */
    method HandleResponse(res: Response)
      requires Leader() != null && Leader().cmd == cmd && Leader().mFollowers > 0
      requires (Leader().mRes != null ==> Leader().mRes != res)
      modifies this, Leader(), res, if Leader().mRes == null then {} else {Leader().mRes}
      ensures mDone && Leader() == old(Leader()) && Leader().mFollowersDone == old(Leader().mFollowersDone) + 1
      ensures Leader().mFollowers == old(Leader().mFollowers)
      ensures (Leader() != this ==> Leader().mDone == old(Leader().mDone))
      ensures mLeader == old(mLeader) && mFollowers == old(mFollowers)
      ensures KeepsOwn(cmd) ==>
                && mRes == res
                && (Leader() != this ==> Leader().mRes == old(Leader().mRes) && LeadView() == old(LeadView()))
                && res.View() == if cmd == Mget then Element(old(res.View()), Leader().mFollowers, Leader() == this)
                    else old(res.View())
      ensures !KeepsOwn(cmd) ==>
                && Leader().mRes != null && (Leader().mRes == res || Leader().mRes == old(Leader().mRes))
                && (Leader() != this ==> mRes == old(mRes))
                && Leader().mRes.View() == Merge(cmd, old(LeadView()), old(res.View()),
                                                 Leader().mFollowers == Leader().mFollowersDone)
    {
      res.AdjustForLeader(this);
      SetResponse(res);
    }
  }

  /** What setResponse keeps, after adjustForLeader. */
  function Kept(c: Cmd, lead: Option<Res>, r: Res, all: bool): Res
  {
    if c == Mset then
      if lead == None || (IsError(r) && !IsError(lead.value)) then r else lead.value
    else if c == Msetnx then
      if lead == None || (!IsError(lead.value) && (IsError(r) || r.n == 0)) then r else lead.value
    else
      var l := if lead == None then r else lead.value;
      if all then SetNumber(l, l.n) else l
  }

  /** The reply a piece keeps for itself. */
  function Own(c: Cmd, r: Res, total: nat, i: nat): Res { if c == Mget then Element(r, total, i == 0) else r }

  ghost function Held(reqs: seq<Request>): set<Response>
    reads reqs
  {
    set r | r in reqs && r.mRes != null :: r.mRes
  }

  /** The requests of a split command: the leader first, and replies `rs` to the pieces
      `arrived`, in the order they came. */
  class Pieces {
    const cmd: Cmd
    const reqs: seq<Request>
    ghost var arrived: seq<nat>
    ghost var rs: seq<Res>

    ghost predicate Linked()
      reads reqs
    {
      && |reqs| >= 2 && (forall i, j :: 0 <= i < j < |reqs| ==> reqs[i] != reqs[j])
      && (forall i :: 0 <= i < |reqs| ==> reqs[i].cmd == cmd && reqs[i].mFollowers == (if i == 0 then |reqs| else 0))
      && (forall i :: 0 < i < |reqs| ==> reqs[i].mLeader == reqs[0])
    }

    ghost predicate Arrivals()
      reads this, reqs
    {
      && Linked() && |rs| == |arrived| && (forall k :: 0 <= k < |arrived| ==> arrived[k] < |reqs|)
      && (forall k, l :: 0 <= k < l < |arrived| ==> arrived[k] != arrived[l])
      && reqs[0].mFollowersDone == |arrived| && (forall i :: 0 <= i < |reqs| ==> (reqs[i].mDone <==> i in arrived))
    }

    /** The leader has the merged reply, the others have none. */
    ghost predicate Merged()
      requires reqs != []
      reads this, reqs, Held(reqs)
    {
      && (forall i :: 0 < i < |reqs| ==> reqs[i].mRes == null)
      && MergeAll(cmd, |reqs|, rs) == if reqs[0].mRes == null then None else Some(reqs[0].mRes.View())
    }

    /** Each piece has its own reply, once it has arrived. */
    ghost predicate Separate()
      requires Arrivals()
      reads this, reqs, Held(reqs)
    {
      && (forall i :: 0 <= i < |reqs| ==> (reqs[i].mRes != null <==> i in arrived))
      && (forall i, j :: 0 <= i < j < |reqs| && reqs[i].mRes != null ==> reqs[i].mRes != reqs[j].mRes)
      && (forall k :: 0 <= k < |arrived| ==> HasOwn(arrived[k], rs[k]))
    }

    ghost predicate Valid()
      reads this, reqs, Held(reqs)
    {
      Arrivals() && if KeepsOwn(cmd) then Separate() else Merged()
    }

    /** The requests of a split command, as the parser made them. */
    constructor (qs: seq<Q.Request>, first: nat, ghost c: Cmd, ghost args: seq<seq<byte>>)
      requires Q.SplitFrom(qs, first, c, args) && first + 1 < |qs|
      ensures Valid() && cmd == qs[first].cmd == c && |reqs| == |qs| - first && arrived == [] && rs == [] && fresh(reqs)
      ensures forall i :: 0 <= i < |reqs| ==> reqs[i].mFollowers == qs[first + i].followers && reqs[i].mRes == null
    {
      assert Q.PieceOf(qs[first], first, 0, c, args);
      cmd := qs[first].cmd;
      arrived, rs := [], [];
      var lead := new Request(qs[first].cmd, qs[first].followers, null);
      var all := [lead];
      while |all| < |qs| - first
        invariant 0 < |all| <= |qs| - first && fresh(all) && all[0] == lead
        invariant forall i, j :: 0 <= i < j < |all| ==> all[i] != all[j]
        invariant forall i :: 0 <= i < |all| ==> all[i].cmd == c && all[i].mFollowers == qs[first + i].followers
        invariant forall i :: 0 <= i < |all| ==> all[i].mRes == null && !all[i].mDone && all[i].mFollowersDone == 0
        invariant forall i :: 0 < i < |all| ==> all[i].mLeader == lead
      {
        var q := qs[first + |all|];
        assert Q.PieceOf(q, first, |all|, c, args);
        var piece := new Request(q.cmd, q.followers, lead);
        all := all + [piece];
      }
      reqs := all;
    }

    ghost predicate HasOwn(i: nat, r: Res)
      requires i < |reqs|
      reads reqs, Held(reqs)
    {
      reqs[i].mRes != null && reqs[i].mRes.View() == Own(cmd, r, |reqs|, i)
    }

    /** A reply to piece i arrives. */
    method Arrive(i: nat, res: Response)
      requires Valid() && i < |reqs| && i !in arrived && res !in Held(reqs)
      modifies this`arrived, this`rs, reqs, Held(reqs), res
      ensures Valid() && arrived == old(arrived) + [i] && rs == old(rs) + [old(res.View())]
      ensures forall j :: 0 <= j < |reqs| && reqs[j].mRes != null ==>
              reqs[j].mRes == res || reqs[j].mRes in old(Held(reqs))
    {
      if KeepsOwn(cmd) {
        ArriveOwn(i, res);
      } else {
        ArriveMerged(i, res);
      }
    }

    method ArriveMerged(i: nat, res: Response)
      requires Arrivals() && Merged() && !KeepsOwn(cmd) && i < |reqs| && i !in arrived && res !in Held(reqs)
      modifies this`arrived, this`rs, reqs, Held(reqs), res
      ensures Arrivals() && Merged() && arrived == old(arrived) + [i] && rs == old(rs) + [old(res.View())]
      ensures forall j :: 0 <= j < |reqs| && reqs[j].mRes != null ==>
              reqs[j].mRes == res || reqs[j].mRes in old(Held(reqs))
    {
      hide MergeAll, Merge;
      ghost var r := res.View();
      Next(i, r);
      assert reqs[i].Leader() == reqs[0];
      assert reqs[i].LeadView() == MergeAll(cmd, |reqs|, rs);
      reqs[i].HandleResponse(res);
      arrived, rs := arrived + [i], rs + [r];
    }

    lemma Next(i: nat, r: Res)
      ensures MergeAll(cmd, |reqs|, rs + [r]) == Some(Merge(cmd, MergeAll(cmd, |reqs|, rs), r, |rs| + 1 == |reqs|))
    {
      hide Merge;
      assert (rs + [r])[..|rs|] == rs;
    }

    /** What a reply to piece i does to all the requests. */
    method HandleOwn(i: nat, res: Response)
      requires Arrivals() && Separate() && KeepsOwn(cmd) && i < |reqs| && i !in arrived && res !in Held(reqs)
      modifies this`arrived, this`rs, reqs, Held(reqs), res
      ensures Arrivals() && arrived == old(arrived) + [i] && rs == old(rs) + [old(res.View())]
      ensures reqs[i].mRes == res && res.View() == Own(cmd, old(res.View()), |reqs|, i)
      ensures forall j :: 0 <= j < |reqs| && j != i ==>
              reqs[j].mRes == old(reqs[j].mRes) &&
                (reqs[j].mRes != null ==> reqs[j].mRes.View() == old(reqs[j].mRes.View()))
    {
      hide Element, MergeAll, Merge, HasOwn;
      assert reqs[i].Leader() == reqs[0];
      assert forall j :: 0 <= j < |reqs| && reqs[j].mRes != null ==> reqs[j].mRes in Held(reqs);
      ghost var r := res.View();
      reqs[i].HandleResponse(res);
      Note(i, r);
    }

    ghost method Note(i: nat, r: Res)
      requires Linked() && i < |reqs| && i !in arrived && |rs| == |arrived|
      requires (forall k :: 0 <= k < |arrived| ==> arrived[k] < |reqs|)
      requires forall k, l :: 0 <= k < l < |arrived| ==> arrived[k] != arrived[l]
      requires reqs[0].mFollowersDone == |arrived| + 1
      requires forall j :: 0 <= j < |reqs| ==> (reqs[j].mDone <==> j == i || j in arrived)
      modifies this`arrived, this`rs
      ensures Arrivals() && arrived == old(arrived) + [i] && rs == old(rs) + [r]
    {
      hide Linked;
      arrived, rs := arrived + [i], rs + [r];
    }

    method ArriveOwn(i: nat, res: Response)
      requires Arrivals() && Separate() && KeepsOwn(cmd) && i < |reqs| && i !in arrived && res !in Held(reqs)
      modifies this`arrived, this`rs, reqs, Held(reqs), res
      ensures Arrivals() && Separate() && arrived == old(arrived) + [i] && rs == old(rs) + [old(res.View())]
      ensures forall j :: 0 <= j < |reqs| && reqs[j].mRes != null ==>
              reqs[j].mRes == res || reqs[j].mRes in old(Held(reqs))
    {
      hide Own, MergeAll, Merge, Linked;
      ghost var a0, rs0 := arrived, rs;
      assert forall j :: 0 <= j < |reqs| && reqs[j].mRes != null ==> reqs[j].mRes in Held(reqs);
      HandleOwn(i, res);
      forall k | 0 <= k < |arrived| ensures HasOwn(arrived[k], rs[k]) {
        if k < |a0| { assert old(HasOwn(a0[k], rs0[k])); }
      }
    }

    /** The merged reply to a count, MSET or MSETNX is done only when all pieces are; every other
        piece, and each piece of a command whose pieces keep their replies, when its own is there. */
    lemma MergedDone()
      requires Valid()
      ensures !KeepsOwn(cmd) ==> (reqs[0].IsDone() <==> forall i :: 0 <= i < |reqs| ==> i in arrived)
      ensures forall i :: 0 <= i < |reqs| && (0 < i || KeepsOwn(cmd)) ==> (reqs[i].IsDone() <==> i in arrived)
    {
      EachOnce(arrived, |reqs|);
    }

    /** A count, when all pieces have replies, in whatever order they arrived: the client gets
        one integer, the sum, if each reply counts for what it says. */
    lemma CountReplied()
      requires Valid() && Counts(cmd) && forall i :: 0 <= i < |reqs| ==> i in arrived
      requires forall k :: 0 <= k < |rs| ==> rs[k].n == Contribution(rs[k]) && rs[k].head == []
      ensures reqs[0].IsDone() && reqs[0].mRes != null
      ensures reqs[0].mRes.mHead + reqs[0].mRes.mRes == F.Encode(F.Integer(Sum(rs)))
    {
      hide MergeAll, Merge, Sum, Contribution, F.Encode;
      EachOnce(arrived, |reqs|);
      CountIsSum(cmd, rs);
    }

    /** What the client is sent of the first n pieces, in the order of the keys. */
    ghost function Sent(n: nat): seq<byte>
      requires n <= |reqs| && forall i :: 0 <= i < n ==> reqs[i].mRes != null
      reads reqs, Held(reqs)
    {
      if n == 0 then [] else Sent(n - 1) + (reqs[n - 1].mRes.mHead + reqs[n - 1].mRes.mRes)
    }

    /** When the reply to piece i came. */
    ghost function When(i: nat): (k: nat)
      requires i in arrived
      reads this
      ensures k < |arrived| && arrived[k] == i
    {
      var k :| 0 <= k < |arrived| && arrived[k] == i;
      k
    }

    /** The replies in the order of the keys. */
    ghost function ByKey(): (own: seq<Res>)
      requires |rs| == |arrived| && forall i :: 0 <= i < |reqs| ==> i in arrived
      reads this
      ensures |own| == |reqs| && forall i :: 0 <= i < |own| ==> own[i] == rs[When(i)]
    {
      seq(|reqs|, i requires 0 <= i < |reqs| && i in arrived && |rs| == |arrived| reads this => rs[When(i)])
    }

    /** MGET, when all pieces have replies, in whatever order they arrived: the client gets
        one array, of the values for the keys in the order of the command. */
    lemma MgetDone(es: seq<F.Reply>)
      requires Valid() && cmd == Mget && |es| == |reqs| && forall i :: 0 <= i < |reqs| ==> i in arrived
      requires forall k :: 0 <= k < |arrived| ==> Answers(rs[k], es[arrived[k]])
      ensures (forall i :: 0 <= i < |reqs| ==> reqs[i].IsDone()) && Sent(|reqs|) == F.Encode(F.Array(es))
    {
      hide Element, MergeAll, Merge, Output, F.Encode, Answers;
      var own := ByKey();
      ByKeySent(own);
      forall i | 0 <= i < |own| ensures Answers(own[i], es[i]) {
        assert Answers(rs[When(i)], es[arrived[When(i)]]);
      }
      MgetReply(own, es, |reqs|);
    }

    /** MGET, whatever the servers answer: one array of as many elements as keys comes out iff no
        reply to a piece is a null array or longer than nine, and together they have that many. */
    lemma MgetExact(vs: seq<F.Reply>)
      requires Valid() && cmd == Mget && |vs| == |reqs| && forall i :: 0 <= i < |reqs| ==> i in arrived
      requires forall k :: 0 <= k < |arrived| ==> Prints(rs[k], vs[arrived[k]])
      ensures (forall i :: 0 <= i < |reqs| ==> reqs[i].IsDone() && reqs[i].mRes != null)
      ensures OneArray(Sent(|reqs|), |reqs|) <==>
                (forall i :: 0 <= i < |vs| ==> ShortHead(vs[i])) && Width(vs) == |vs|
    {
      hide Element, MergeAll, Merge, Output, F.Encode, Prints, OneArray, ShortHead, Width;
      var own := ByKey();
      ByKeySent(own);
      forall i | 0 <= i < |own| ensures Prints(own[i], vs[i]) {
        assert Prints(rs[When(i)], vs[arrived[When(i)]]);
      }
      MgetExactly(own, vs);
    }

    lemma ByKeySent(own: seq<Res>)
      requires Valid() && cmd == Mget && (forall i :: 0 <= i < |reqs| ==> i in arrived) && own == ByKey()
      ensures (forall i :: 0 <= i < |reqs| ==> reqs[i].IsDone() && reqs[i].mRes != null)
      ensures Sent(|reqs|) == Output(own, |reqs|)
    {
      hide Element, MergeAll, Merge, Output;
      forall i | 0 <= i < |reqs|
        ensures reqs[i].mRes != null && reqs[i].mRes.View() == Element(own[i], |reqs|, i == 0)
      {
        assert HasOwn(arrived[When(i)], rs[When(i)]);
      }
      SentIs(own, |reqs|);
      assert own[..|reqs|] == own;
    }

    lemma {:induction false} SentIs(own: seq<Res>, n: nat)
      requires n <= |own| == |reqs|
      requires forall i :: 0 <= i < |reqs| ==>
               reqs[i].mRes != null && reqs[i].mRes.View() == Element(own[i], |reqs|, i == 0)
      ensures Sent(n) == Output(own[..n], |reqs|)
    {
      hide Element;
      if n > 0 {
        SentIs(own, n - 1);
        assert own[..n][..n - 1] == own[..n - 1];
      }
    }
  }

  /** Replies `rs` to the pieces of a split command arrive in the order `order`. */
  method Collect(qs: seq<Q.Request>, first: nat, ghost c: Cmd, ghost args: seq<seq<byte>>, order: seq<nat>,
                 rs: seq<Res>)
    returns (p: Pieces)
    requires Q.SplitFrom(qs, first, c, args) && first + 1 < |qs| && |order| == |rs|
    requires (forall k :: 0 <= k < |order| ==> order[k] < |qs| - first)
    requires forall k, l :: 0 <= k < l < |order| ==> order[k] != order[l]
    ensures p.Valid() && p.cmd == qs[first].cmd == c && |p.reqs| == |qs| - first && p.arrived == order && p.rs == rs
  {
    hide Pieces.Arrivals, Pieces.Merged, Pieces.Separate;
    p := new Pieces(qs, first, c, args);
    var k := 0;
    while k < |order|
      invariant k <= |order| && p.Valid() && p.arrived == order[..k] && p.rs == rs[..k]
      invariant fresh(p) && fresh(p.reqs) && fresh(Held(p.reqs))
    {
      var res := new Response(rs[k]);
      ghost var held := Held(p.reqs);
      p.Arrive(order[k], res);
      assert Held(p.reqs) <= held + {res};
      k := k + 1;
    }
  }

  /** Distinct numbers below n are all of them iff there are n. */
  lemma EachOnce(a: seq<nat>, n: nat)
    requires (forall k :: 0 <= k < |a| ==> a[k] < n) && forall k, l :: 0 <= k < l < |a| ==> a[k] != a[l]
    ensures |a| == n <==> forall i :: 0 <= i < n ==> i in a
  {
    var s := Members(a);
    SetOf(a);
    var all := Below(n);
    assert s <= all;
    if forall i :: 0 <= i < n ==> i in a {
      assert s == all;
    }
    if |a| == n {
      SubsetSize(s, all);
      forall i | 0 <= i < n ensures i in a { assert i in all && i in s; }
    }
  }

  function Members(a: seq<nat>): set<nat> { set k | k in a }

  lemma {:induction false} SetOf(a: seq<nat>)
    requires forall k, l :: 0 <= k < l < |a| ==> a[k] != a[l]
    ensures |Members(a)| == |a|
    decreases |a|
  {
    if a != [] {
      var n := |a| - 1;
      SetOf(a[..n]);
      assert Members(a) == Members(a[..n]) + {a[n]};
    }
  }

  function Below(n: nat): (s: set<nat>)
    ensures |s| == n && forall i: nat :: i in s <==> i < n
  {
    if n == 0 then {} else Below(n - 1) + {n - 1}
  }

  lemma SubsetSize(s: set<nat>, t: set<nat>)
    requires s <= t && |s| == |t|
    ensures s == t
  {
    assert t == s + (t - s);
  }
}
