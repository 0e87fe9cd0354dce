/** rewriteAppendOnlyFileRio: the dataset as commands, in batches, and what replaying
    them on an empty server rebuilds. This is the dataset the runs of AofRun can be
    instantiated with. */
module AofRewrite {
  import opened Bytes
  import opened AofFormat
  import opened AofLoader
  import opened AofRun
  import opened Options

  // ----- the dataset -------------------------------------------------------------------

  /** What a key holds, as a client sees it. A score is its "%.17g" text. */
  datatype Value =
    | Str(text: seq<byte>)
    | List(items: seq<seq<byte>>)
    | Set(members: set<seq<byte>>)
    | ZSet(scores: map<seq<byte>, seq<byte>>)
    | Hash(fields: map<seq<byte>, seq<byte>>)

  datatype Entry = Entry(value: Value, expire: Option<int>)

  type Key = (nat, seq<byte>)
  type Keyspace = map<Key, Entry>

  /** An element as a compact encoding stores it: bytes, or an integer. */
  datatype Element = Raw(raw: seq<byte>) | Int(n: int)

  function Text(e: Element): seq<byte> { if e.Raw? then e.raw else Decimal(e.n) }

  /** An object in the order its iterator visits it. */
  datatype Object =
    | StrObj(text: Element)
    | ListObj(items: seq<Element>)
    | SetObj(items: seq<Element>)
    | ZSetObj(pairs: seq<(Element, seq<byte>)>)
    | HashObj(fields: seq<(Element, Element)>)

  function Texts(items: seq<Element>): (r: seq<seq<byte>>)
    ensures |r| == |items| && forall i :: 0 <= i < |items| ==> r[i] == Text(items[i])
  {
    seq(|items|, i requires 0 <= i < |items| => Text(items[i]))
  }

  function ScoreMap(pairs: seq<(Element, seq<byte>)>): map<seq<byte>, seq<byte>>
  {
    if pairs == [] then map[] else
    var last := pairs[|pairs| - 1];
    ScoreMap(pairs[..|pairs| - 1])[Text(last.0) := last.1]
  }

  function FieldMap(fields: seq<(Element, Element)>): map<seq<byte>, seq<byte>>
  {
    if fields == [] then map[] else
    var last := fields[|fields| - 1];
    FieldMap(fields[..|fields| - 1])[Text(last.0) := Text(last.1)]
  }

  function ValueOf(o: Object): Value
  {
    match o
    case StrObj(text) => Str(Text(text))
    case ListObj(items) => List(Texts(items))
    case SetObj(items) => Set(set t | t in Texts(items))
    case ZSetObj(pairs) => ZSet(ScoreMap(pairs))
    case HashObj(fields) => Hash(FieldMap(fields))
  }

  /** Redis deletes a key whose last element goes, so aggregates are not empty. */
  predicate IsStored(o: Object)
  {
    match o
    case StrObj(_) => true
    case ListObj(items) => items != []
    case SetObj(items) => items != []
    case ZSetObj(pairs) => pairs != []
    case HashObj(fields) => fields != []
  }

  // ----- the commands the rewrite uses ------------------------------------------------------

  datatype Kind = KSet | KPexpireat | KRpush | KSadd | KZadd | KHmset | KOther

  function KindOf(argv: Argv): Kind
  {
    if IsNamed(argv, "set") then KSet
    else if IsNamed(argv, "pexpireat") then KPexpireat
    else if IsNamed(argv, "rpush") then KRpush
    else if IsNamed(argv, "sadd") then KSadd
    else if IsNamed(argv, "zadd") then KZadd
    else if IsNamed(argv, "hmset") then KHmset
    else KOther
  }

  /** Score-member pairs (by = 1) or field-value pairs (by = 0), later ones winning. */
  function PutPairs(m: map<seq<byte>, seq<byte>>, args: Argv, scoreFirst: bool): map<seq<byte>, seq<byte>>
    decreases |args|
  {
    if |args| < 2 then m
    else PutPairs(if scoreFirst then m[args[1] := args[0]] else m[args[0] := args[1]], args[2..], scoreFirst)
  }

  function SetExpire(d: Keyspace, k: Key, when: int): Keyspace
  {
    if k in d then d[k := d[k].(expire := Some(when))] else d
  }

  /** One collection command on the value a key holds, if any; None is WRONGTYPE. */
  function Update(was: Option<Value>, kind: Kind, args: Argv): Option<Value>
  {
    match kind
    case KRpush =>
      if was.None? then Some(List(args))
      else if was.value.List? then Some(List(was.value.items + args)) else None
    case KSadd =>
      if was.None? then Some(Set(set a | a in args))
      else if was.value.Set? then Some(Set(was.value.members + set a | a in args)) else None
    case KZadd =>
      if was.None? then Some(ZSet(PutPairs(map[], args, true)))
      else if was.value.ZSet? then Some(ZSet(PutPairs(was.value.scores, args, true))) else None
    case KHmset =>
      if was.None? then Some(Hash(PutPairs(map[], args, false)))
      else if was.value.Hash? then Some(Hash(PutPairs(was.value.fields, args, false))) else None
    case _ => None
  }

  /** Commands other than those the rewrite emits are a parameter. */
  function ExecOn(other: (Keyspace, nat, Argv) -> Keyspace, d: Keyspace, db: nat, argv: Argv): Keyspace
  {
    match KindOf(argv)
    case KOther => other(d, db, argv)
    case KSet => if |argv| >= 3 then d[(db, argv[1]) := Entry(Str(argv[2]), None)] else d
    case KPexpireat => if |argv| >= 3 then SetExpire(d, (db, argv[1]), Strtol(argv[2])) else d
    case kind =>
      if |argv| < 3 then d else
      var k := (db, argv[1]);
      var v := Update(if k in d then Some(d[k].value) else None, kind, argv[2..]);
      if v.None? then d
      else d[k := Entry(v.value, if k in d then d[k].expire else None)]
  }

  function RedisSemantics(dbnum: nat, known: seq<byte> -> bool, other: (Keyspace, nat, Argv) -> Keyspace)
    : Semantics<Keyspace>
  {
    Semantics(map[], dbnum, known, (d, db, argv) => ExecOn(other, d, db, argv))
  }

  // ----- names ----------------------------------------------------------------------------------

  predicate IsPlain(argv: Argv)
  {
    !IsNamed(argv, "multi") && !IsNamed(argv, "exec") && !IsNamed(argv, "select")
  }

  lemma ShortNames(argv: Argv)
    requires argv != []
    ensures argv[0] == Ascii("SET") ==> KindOf(argv) == KSet && IsPlain(argv)
    ensures argv[0] == Ascii("SADD") ==> KindOf(argv) == KSadd && IsPlain(argv)
    ensures argv[0] == Ascii("ZADD") ==> KindOf(argv) == KZadd && IsPlain(argv)
  {
    NamesByLength();
    if argv[0] == Ascii("SET") {
      assert Lower(argv[0]) == Ascii("set");
    } else if argv[0] == Ascii("SADD") {
      assert Lower(argv[0]) == Ascii("sadd");
      assert Ascii("sadd")[0] != Ascii("exec")[0];
    } else if argv[0] == Ascii("ZADD") {
      assert Lower(argv[0]) == Ascii("zadd");
      assert Ascii("zadd")[0] != Ascii("exec")[0] && Ascii("zadd")[0] != Ascii("sadd")[0];
    }
  }

  lemma LongNames(argv: Argv)
    requires argv != []
    ensures argv[0] == Ascii("RPUSH") ==> KindOf(argv) == KRpush && IsPlain(argv)
    ensures argv[0] == Ascii("HMSET") ==> KindOf(argv) == KHmset && IsPlain(argv)
  {
    NamesByLength();
    if argv[0] == Ascii("RPUSH") {
      assert Lower(argv[0]) == Ascii("rpush");
      assert Ascii("rpush")[0] != Ascii("multi")[0];
    } else if argv[0] == Ascii("HMSET") {
      assert Lower(argv[0]) == Ascii("hmset");
      assert Ascii("hmset")[0] != Ascii("multi")[0] && Ascii("hmset")[0] != Ascii("rpush")[0];
    }
  }

  lemma PexpireatName(argv: Argv)
    requires argv != [] && argv[0] == Ascii("PEXPIREAT")
    ensures KindOf(argv) == KPexpireat && IsPlain(argv)
  {
    NamesByLength();
    assert Lower(argv[0]) == Ascii("pexpireat");
  }

  lemma NamesByLength()
    ensures |Ascii("set")| == 3
    ensures |Ascii("sadd")| == |Ascii("zadd")| == |Ascii("exec")| == 4
    ensures |Ascii("rpush")| == |Ascii("hmset")| == |Ascii("multi")| == 5
    ensures |Ascii("select")| == 6 && |Ascii("pexpireat")| == 9
  {
  }

  // ----- batches ------------------------------------------------------------------------------------

  function Concat(groups: seq<Argv>): Argv
  {
    if groups == [] then [] else groups[0] + Concat(groups[1..])
  }

  lemma {:induction false} ConcatAppend(a: seq<Argv>, b: seq<Argv>)
    ensures Concat(a + b) == Concat(a) + Concat(b)
  {
    if a == [] {
      assert a + b == b;
    } else {
      assert (a + b)[1..] == a[1..] + b;
      ConcatAppend(a[1..], b);
    }
  }

  predicate Uniform(groups: seq<Argv>, width: nat) { forall i :: 0 <= i < |groups| ==> |groups[i]| == width }

  lemma {:induction false} ConcatLength(groups: seq<Argv>, width: nat)
    requires Uniform(groups, width)
    ensures |Concat(groups)| == width * |groups|
  {
    if groups != [] {
      ConcatLength(groups[1..], width);
      assert width * |groups| == width + width * (|groups| - 1);
    }
  }

  function Min(a: nat, b: nat): (m: nat)
    ensures m <= a && m <= b && (m == a || m == b)
  {
    if a < b then a else b
  }

  /** At most `per` items a command, in order. */
  function Batches(name: seq<byte>, key: seq<byte>, groups: seq<Argv>, per: nat): seq<Argv>
    requires per > 0
    decreases |groups|
  {
    if groups == [] then [] else
    var m := Min(per, |groups|);
    [[name, key] + Concat(groups[..m])] + Batches(name, key, groups[m..], per)
  }

  /** What is still to be written when `count` items of the current batch are out: the
      rest of the batch whose header has been written, then the other batches. */
  ghost function StillToWrite(name: seq<byte>, key: seq<byte>, groups: seq<Argv>, per: nat, count: nat): seq<byte>
    requires per > 0 && count < per
  {
    if count == 0 then PrintAll(Batches(name, key, groups, per)) else InsideBatch(name, key, groups, per, count)
  }

  /** With the header out: the rest of the batch and the other batches. */
  ghost function InsideBatch(name: seq<byte>, key: seq<byte>, groups: seq<Argv>, per: nat, count: nat): seq<byte>
    requires per > 0 && count < per
  {
    var m := Min(per - count, |groups|);
    PrintArgs(Concat(groups[..m])) + PrintAll(Batches(name, key, groups[m..], per))
  }

  /** The count in a batch's header is the number of arguments that follow it. */
  lemma StartBatch(name: seq<byte>, key: seq<byte>, groups: seq<Argv>, per: nat)
    requires per > 0 && groups != []
    ensures var m := Min(per, |groups|);
            var items := Concat(groups[..m]);
            PrintAll(Batches(name, key, groups, per)) ==
              Header(STAR, 2 + |items|) + PrintArg(name) + PrintArg(key)
              + (PrintArgs(items) + PrintAll(Batches(name, key, groups[m..], per)))
  {
    hide Header, PrintArg, PrintArgs, Concat, Min;
    var m := Min(per, |groups|);
    var items := Concat(groups[..m]);
    NameAndKey(name, key, items);
    var first, others := [name, key] + items, Batches(name, key, groups[m..], per);
    assert |first| == 2 + |items|;
    assert ([first] + others)[1..] == others;
    Regroup(Header(STAR, |first|), PrintArg(name), PrintArg(key), PrintArgs(items), PrintAll(others));
  }

  lemma Regroup(h: seq<byte>, n: seq<byte>, k: seq<byte>, i: seq<byte>, r: seq<byte>)
    ensures h + (n + k + i) + r == h + n + k + (i + r)
  {
  }

  lemma NameAndKey(name: seq<byte>, key: seq<byte>, args: Argv)
    ensures PrintArgs([name, key] + args) == PrintArg(name) + PrintArg(key) + PrintArgs(args)
  {
    hide PrintArg;
    PrintArgsAppend([name, key], args);
    assert [name, key][1..] == [key];
    assert PrintArgs([name, key]) == PrintArg(name) + PrintArgs([key]);
    assert PrintArgs([key]) == PrintArg(key) + PrintArgs([]);
  }

  lemma WriteItem(name: seq<byte>, key: seq<byte>, groups: seq<Argv>, per: nat, count: nat)
    requires per > 0 && count < per && groups != []
    ensures var m := Min(per - count, |groups|);
            PrintArgs(Concat(groups[..m])) + PrintAll(Batches(name, key, groups[m..], per))
            == PrintArgs(groups[0])
               + StillToWrite(name, key, groups[1..], per, if count + 1 == per then 0 else count + 1)
  {
    hide PrintAll, PrintArgs, Batches, Concat;
    var m := Min(per - count, |groups|);
    var rest := groups[1..];
    assert groups[m..] == rest[m - 1..];
    ItemOfBatch(groups, m);
    NoArgs();
    assert rest[..0] == [];
    var next := if count + 1 == per then 0 else count + 1;
    if next == 0 {
      assert rest[m - 1..] == rest;
    } else {
      assert Min(per - next, |rest|) == m - 1;
    }
  }

  lemma NoArgs()
    ensures PrintArgs(Concat([])) == []
  {
  }

  lemma ItemOfBatch(groups: seq<Argv>, m: nat)
    requires 1 <= m <= |groups|
    ensures PrintArgs(Concat(groups[..m])) == PrintArgs(groups[0]) + PrintArgs(Concat(groups[1..][..m - 1]))
  {
    assert groups[..m][0] == groups[0] && groups[..m][1..] == groups[1..][..m - 1];
    PrintArgsAppend(groups[0], Concat(groups[1..][..m - 1]));
  }

  /** The loop that rewriteListObject, rewriteSetObject, rewriteSortedSetObject and
      rewriteHashObject share: a header when a batch starts, then the item's arguments. */
  method RewriteItems(r: seq<byte>, name: seq<byte>, key: seq<byte>, groups: seq<Argv>, width: nat, per: nat)
    returns (out: seq<byte>)
    requires per > 0 && Uniform(groups, width)
    ensures out == r + PrintAll(Batches(name, key, groups, per))
  {
    hide PrintAll, Batches, StillToWrite, PrintArg, PrintArgs, Header, Concat, Min;
    out := r;
    var count, items, i := 0, |groups|, 0;
    ghost var all := r + PrintAll(Batches(name, key, groups, per));
    assert groups[0..] == groups;
    StillAtZero(name, key, groups, per);
    while i < |groups|
      invariant i <= |groups| && items == |groups| - i && count < per
      invariant all == out + StillToWrite(name, key, groups[i..], per, count)
    {
      ghost var rest := groups[i..];
      if count == 0 {
        var cmdItems := if items > per then per else items;
        out := RewriteHeader(out, cmdItems, name, key, rest, width, per);
      }
      ghost var next := NextItem(out, all, name, key, rest, per, count);
      assert rest[1..] == groups[i + 1..];
      out := RewriteArgs(out, groups[i]);
      count := count + 1;
      if count == per {
        count := 0;
      }
      items := items - 1;
      i := i + 1;
    }
    assert groups[i..] == [];
    NothingLeft(name, key, per, count);
    assert out + [] == out;
  }

  /** rioWriteBulkCount of the batch, the command name and the key. */
  method RewriteHeader(r: seq<byte>, cmdItems: nat, name: seq<byte>, key: seq<byte>, ghost rest: seq<Argv>, width: nat,
                       per: nat)
    returns (out: seq<byte>)
    requires per > 0 && rest != [] && cmdItems == (if |rest| > per then per else |rest|) && Uniform(rest, width)
    ensures r + StillToWrite(name, key, rest, per, 0) == out + InsideBatch(name, key, rest, per, 0)
  {
    hide PrintAll, Batches, PrintArg, PrintArgs, Header, Concat;
    StartBatch(name, key, rest, per);
    ConcatLength(rest[..cmdItems], width);
    out := r + Header(STAR, 2 + cmdItems * width);
    out := out + PrintArg(name);
    out := out + PrintArg(key);
  }

  lemma NextItem(out: seq<byte>, all: seq<byte>, name: seq<byte>, key: seq<byte>, rest: seq<Argv>, per: nat, count: nat)
    returns (next: nat)
    requires per > 0 && count < per && rest != []
    requires all == out + if count == 0 then InsideBatch(name, key, rest, per, 0)
             else StillToWrite(name, key, rest, per, count)
    ensures next == (if count + 1 == per then 0 else count + 1)
    ensures all == out + PrintArgs(rest[0]) + StillToWrite(name, key, rest[1..], per, next)
  {
    hide PrintAll, Batches, PrintArgs, Concat, Min;
    next := if count + 1 == per then 0 else count + 1;
    WriteItem(name, key, rest, per, count);
    var more := StillToWrite(name, key, rest[1..], per, next);
    assert all == out + (PrintArgs(rest[0]) + more);
  }

  /** rioWriteBulkString, rioWriteBulkLongLong or rioWriteBulkDouble per argument. */
  method RewriteArgs(r: seq<byte>, args: Argv) returns (out: seq<byte>)
    ensures out == r + PrintArgs(args)
  {
    out := r;
    var i := 0;
    assert args[0..] == args;
    while i < |args|
      invariant i <= |args|
      invariant r + PrintArgs(args) == out + PrintArgs(args[i..])
    {
      assert args[i..][1..] == args[i + 1..];
      out := out + PrintArg(args[i]);
      i := i + 1;
    }
  }

  lemma StillAtZero(name: seq<byte>, key: seq<byte>, groups: seq<Argv>, per: nat)
    requires per > 0
    ensures StillToWrite(name, key, groups, per, 0) == PrintAll(Batches(name, key, groups, per))
  {
  }

  lemma NothingLeft(name: seq<byte>, key: seq<byte>, per: nat, count: nat)
    requires per > 0 && count < per
    ensures StillToWrite(name, key, [], per, count) == []
  {
  }

  // ----- objects as commands ---------------------------------------------------------------------

  function NameOf(o: Object): seq<byte>
  {
    match o
    case StrObj(_) => Ascii("SET")
    case ListObj(_) => Ascii("RPUSH")
    case SetObj(_) => Ascii("SADD")
    case ZSetObj(_) => Ascii("ZADD")
    case HashObj(_) => Ascii("HMSET")
  }

  function Groups(o: Object): seq<Argv>
  {
    match o
    case StrObj(text) => [[Text(text)]]
    case ListObj(items) => Singles(items)
    case SetObj(items) => Singles(items)
    case ZSetObj(pairs) => seq(|pairs|, i requires 0 <= i < |pairs| => [pairs[i].1, Text(pairs[i].0)])
    case HashObj(fields) => seq(|fields|, i requires 0 <= i < |fields| => [Text(fields[i].0), Text(fields[i].1)])
  }

  function Singles(items: seq<Element>): seq<Argv>
  {
    seq(|items|, i requires 0 <= i < |items| => [Text(items[i])])
  }

  function Width(o: Object): nat { if o.ZSetObj? || o.HashObj? then 2 else 1 }

  function ObjectCommands(key: seq<byte>, o: Object, per: nat): seq<Argv>
    requires per > 0
  {
    if o.StrObj? then [[Ascii("SET"), key, Text(o.text)]] else Batches(NameOf(o), key, Groups(o), per)
  }

  /** rewriteListObject, rewriteSetObject, rewriteSortedSetObject, rewriteHashObject and
      the SET of a string. */
  method RewriteObject(r: seq<byte>, key: seq<byte>, o: Object, per: nat) returns (out: seq<byte>)
    requires per > 0
    ensures out == r + PrintAll(ObjectCommands(key, o, per))
  {
    hide PrintAll, PrintCommand, Batches;
    if o.StrObj? {
      var argv := [Ascii("SET"), key, Text(o.text)];
      out := CatAppendOnlyGenericCommand(r, argv);
      PrintSingle(argv);
    } else {
      out := RewriteItems(r, NameOf(o), key, Groups(o), Width(o), per);
    }
  }

  lemma PrintSingle(argv: Argv)
    ensures PrintAll([argv]) == PrintCommand(argv)
  {
    assert PrintAll([argv]) == PrintCommand(argv) + PrintAll([]);
  }

  // ----- replaying one object ----------------------------------------------------------------------

  lemma {:induction false} PutPairsAppend(m: map<seq<byte>, seq<byte>>, a: Argv, b: Argv, scoreFirst: bool)
    requires |a| % 2 == 0
    ensures PutPairs(m, a + b, scoreFirst) == PutPairs(PutPairs(m, a, scoreFirst), b, scoreFirst)
    decreases |a|
  {
    if a == [] {
      assert a + b == b;
    } else {
      assert (a + b)[2..] == a[2..] + b && (a + b)[0] == a[0] && (a + b)[1] == a[1];
      PutPairsAppend(if scoreFirst then m[a[1] := a[0]] else m[a[0] := a[1]], a[2..], b, scoreFirst);
    }
  }

  /** The value a key would hold fits the command, so that it is not WRONGTYPE. */
  predicate Fits(was: Option<Value>, kind: Kind)
  {
    match kind
    case KRpush => was.None? || was.value.List?
    case KSadd => was.None? || was.value.Set?
    case KZadd => was.None? || was.value.ZSet?
    case KHmset => was.None? || was.value.Hash?
    case _ => false
  }

  /** Two commands in a row do what one with all their arguments does. */
  lemma UpdateAppend(was: Option<Value>, kind: Kind, a: Argv, b: Argv)
    requires Fits(was, kind)
    requires kind == KZadd || kind == KHmset ==> |a| % 2 == 0
    ensures Update(was, kind, a).Some? && Fits(Update(was, kind, a), kind)
    ensures Update(Update(was, kind, a), kind, b) == Update(was, kind, a + b)
  {
    match kind
    case KRpush =>
      if was.Some? { assert was.value.items + a + b == was.value.items + (a + b); }
    case KSadd =>
      assert (set x | x in a + b) == (set x | x in a) + (set x | x in b);
      if was.Some? {
        assert was.value.members + (set x | x in a + b) == was.value.members + (set x | x in a) + (set x | x in b);
      }
    case KZadd => PutPairsAppend(if was.None? then map[] else was.value.scores, a, b, true);
    case KHmset => PutPairsAppend(if was.None? then map[] else was.value.fields, a, b, false);
    case _ =>
  }

  function Held(d: Keyspace, k: Key): Option<Value> { if k in d then Some(d[k].value) else None }

  function Hold(d: Keyspace, k: Key, v: Value): Keyspace
  {
    d[k := Entry(v, if k in d then d[k].expire else None)]
  }

  lemma ExecCollection(sem: Semantics<Keyspace>, other: (Keyspace, nat, Argv) -> Keyspace, c: Client<Keyspace>,
                       name: seq<byte>, key: seq<byte>, args: Argv, kind: Kind)
    requires sem == RedisSemantics(sem.dbnum, sem.known, other)
    requires KindOf([name, key] + args) == kind && IsPlain([name, key] + args) && args != []
    requires Fits(Held(c.data, (c.db, key)), kind)
    ensures Update(Held(c.data, (c.db, key)), kind, args).Some?
    ensures Exec(sem, c, [name, key] + args)
         == c.(data := Hold(c.data, (c.db, key), Update(Held(c.data, (c.db, key)), kind, args).value))
  {
    hide KindOf, IsNamed;
    assert ([name, key] + args)[2..] == args;
  }

  predicate Collection(name: seq<byte>, kind: Kind)
  {
    || (name == Ascii("RPUSH") && kind == KRpush)
    || (name == Ascii("SADD") && kind == KSadd)
    || (name == Ascii("ZADD") && kind == KZadd)
    || (name == Ascii("HMSET") && kind == KHmset)
  }

  lemma CollectionKind(name: seq<byte>, kind: Kind, argv: Argv)
    requires Collection(name, kind) && argv != [] && argv[0] == name
    ensures KindOf(argv) == kind && IsPlain(argv)
  {
    hide KindOf, IsNamed;
    ShortNames(argv);
    LongNames(argv);
  }

  /** Replaying the batches, whatever their size, has the effect of one command that
      carries all items. */
  lemma {:induction false} ReplayBatches(sem: Semantics<Keyspace>, other: (Keyspace, nat, Argv) -> Keyspace,
                                         c: Client<Keyspace>, name: seq<byte>, key: seq<byte>, groups: seq<Argv>,
                                         width: nat, per: nat, kind: Kind)
    requires sem == RedisSemantics(sem.dbnum, sem.known, other)
    requires per > 0 && Collection(name, kind) && Uniform(groups, width) && width >= 1 && groups != []
    requires kind == KZadd || kind == KHmset ==> width == 2
    requires Fits(Held(c.data, (c.db, key)), kind)
    ensures var v := Update(Held(c.data, (c.db, key)), kind, Concat(groups));
            && v.Some?
            && ExecAll(sem, c, Batches(name, key, groups, per)) == c.(data := Hold(c.data, (c.db, key), v.value))
    decreases |groups|
  {
    hide Update, Exec, KindOf, IsNamed, Concat, Fits;
    var k := (c.db, key);
    var m := Min(per, |groups|);
    var args, rest := Concat(groups[..m]), groups[m..];
    assert groups == groups[..m] + rest;
    ConcatAppend(groups[..m], rest);
    ConcatLength(groups[..m], width);
    ItemsMakeArguments(width, m);
    CollectionKind(name, kind, [name, key] + args);
    ExecCollection(sem, other, c, name, key, args, kind);
    UpdateAppend(Held(c.data, k), kind, args, Concat(rest));
    var c1 := Exec(sem, c, [name, key] + args);
    FirstBatch(sem, c, name, key, groups, per);
    if rest == [] {
      EmptyConcat(args);
      FirstBatch(sem, c1, name, key, groups, per);
    } else {
      HoldTwice(c.data, k, Update(Held(c.data, k), kind, args).value,
                Update(Held(c.data, k), kind, args + Concat(rest)));
      ReplayBatches(sem, other, c1, name, key, rest, width, per, kind);
    }
  }

  lemma HoldTwice(d: Keyspace, k: Key, v: Value, w: Option<Value>)
    ensures Held(Hold(d, k, v), k) == Some(v)
    ensures w.Some? ==> Hold(Hold(d, k, v), k, w.value) == Hold(d, k, w.value)
  {
  }

  lemma ItemsMakeArguments(width: nat, m: nat)
    requires width >= 1 && m >= 1
    ensures width * m > 0
    ensures width == 2 ==> (width * m) % 2 == 0
  {
    assert width * m >= m;
  }

  lemma EmptyConcat(args: Argv)
    ensures args + Concat([]) == args
  {
  }

  lemma FirstBatch(sem: Semantics<Keyspace>, c: Client<Keyspace>, name: seq<byte>, key: seq<byte>, groups: seq<Argv>,
                   per: nat)
    requires per > 0 && groups != []
    ensures var m := Min(per, |groups|);
            ExecAll(sem, c, Batches(name, key, groups, per))
            == ExecAll(sem, Exec(sem, c, [name, key] + Concat(groups[..m])), Batches(name, key, groups[m..], per))
    ensures Batches(name, key, [], per) == []
    ensures ExecAll(sem, c, []) == c
  {
    hide Exec, Concat;
    var m := Min(per, |groups|);
    var all := Batches(name, key, groups, per);
    assert all[0] == [name, key] + Concat(groups[..m]) && all[1..] == Batches(name, key, groups[m..], per);
  }

  /** One group after the other puts the pairs of an iterator in the map. */
  lemma {:induction false} ScorePairs(pairs: seq<(Element, seq<byte>)>)
    ensures PutPairs(map[], Concat(Groups(ZSetObj(pairs))), true) == ScoreMap(pairs)
    decreases |pairs|
  {
    if pairs != [] {
      var init, last := pairs[..|pairs| - 1], pairs[|pairs| - 1];
      var all, some, one := Groups(ZSetObj(pairs)), Groups(ZSetObj(init)), [last.1, Text(last.0)];
      assert all == some + [one];
      SnocGroup(some, one);
      ConcatLength(some, 2);
      PutPairsAppend(map[], Concat(some), one, true);
      ScorePairs(init);
      OnePair(ScoreMap(init), last.1, Text(last.0));
    }
  }

  lemma {:induction false} FieldPairs(fields: seq<(Element, Element)>)
    ensures PutPairs(map[], Concat(Groups(HashObj(fields))), false) == FieldMap(fields)
    decreases |fields|
  {
    if fields != [] {
      var init, last := fields[..|fields| - 1], fields[|fields| - 1];
      var all, some, one := Groups(HashObj(fields)), Groups(HashObj(init)), [Text(last.0), Text(last.1)];
      assert all == some + [one];
      SnocGroup(some, one);
      ConcatLength(some, 2);
      PutPairsAppend(map[], Concat(some), one, false);
      FieldPairs(init);
      OnePair(FieldMap(init), Text(last.0), Text(last.1));
    }
  }

  lemma OnePair(m: map<seq<byte>, seq<byte>>, a: seq<byte>, b: seq<byte>)
    ensures PutPairs(m, [a, b], true) == m[b := a] && PutPairs(m, [a, b], false) == m[a := b]
  {
    assert [a, b][2..] == [];
  }

  lemma SnocGroup(groups: seq<Argv>, g: Argv)
    ensures Concat(groups + [g]) == Concat(groups) + g
  {
    ConcatAppend(groups, [g]);
    assert Concat([g]) == g + Concat([]);
  }

  lemma {:induction false} SingleTexts(items: seq<Element>)
    ensures Concat(Singles(items)) == Texts(items)
    decreases |items|
  {
    if items != [] {
      var init, last := items[..|items| - 1], items[|items| - 1];
      assert Singles(items) == Singles(init) + [[Text(last)]];
      SnocGroup(Singles(init), [Text(last)]);
      SingleTexts(init);
      assert Texts(items) == Texts(init) + [Text(last)];
    }
  }

  function CollectionOf(o: Object): Kind
  {
    match o
    case StrObj(_) => KSet
    case ListObj(_) => KRpush
    case SetObj(_) => KSadd
    case ZSetObj(_) => KZadd
    case HashObj(_) => KHmset
  }

  lemma GroupsBuild(o: Object)
    requires !o.StrObj?
    ensures Update(None, CollectionOf(o), Concat(Groups(o))) == Some(ValueOf(o))
    ensures Uniform(Groups(o), Width(o)) && (IsStored(o) ==> Groups(o) != [])
    ensures Collection(NameOf(o), CollectionOf(o)) && Fits(None, CollectionOf(o))
  {
    match o
    case ListObj(items) => SingleTexts(items);
    case SetObj(items) => SingleTexts(items);
    case ZSetObj(pairs) => ScorePairs(pairs);
    case HashObj(fields) => FieldPairs(fields);
  }

  /** Replaying an object's commands where its key is missing rebuilds its value. */
  lemma ReplayObject(sem: Semantics<Keyspace>, other: (Keyspace, nat, Argv) -> Keyspace, c: Client<Keyspace>,
                     key: seq<byte>, o: Object, per: nat)
    requires sem == RedisSemantics(sem.dbnum, sem.known, other)
    requires per > 0 && IsStored(o) && (c.db, key) !in c.data
    ensures ExecAll(sem, c, ObjectCommands(key, o, per))
         == c.(data := c.data[(c.db, key) := Entry(ValueOf(o), None)])
  {
    hide KindOf, IsNamed, Exec, ExecOn, Batches, Groups, Update, ExecAll;
    if o.StrObj? {
      ReplayString(sem, other, c, key, Text(o.text));
    } else {
      GroupsBuild(o);
      ReplayBatches(sem, other, c, NameOf(o), key, Groups(o), Width(o), per, CollectionOf(o));
    }
  }

  lemma ReplayString(sem: Semantics<Keyspace>, other: (Keyspace, nat, Argv) -> Keyspace, c: Client<Keyspace>,
                     key: seq<byte>, text: seq<byte>)
    requires sem == RedisSemantics(sem.dbnum, sem.known, other)
    ensures ExecAll(sem, c, [[Ascii("SET"), key, text]]) == c.(data := c.data[(c.db, key) := Entry(Str(text), None)])
  {
    hide KindOf, IsNamed;
    var argv := [Ascii("SET"), key, text];
    ShortNames(argv);
    assert ExecAll(sem, c, [argv]) == ExecAll(sem, Exec(sem, c, argv), []);
  }

  lemma ReplayExpire(sem: Semantics<Keyspace>, other: (Keyspace, nat, Argv) -> Keyspace, c: Client<Keyspace>,
                     key: seq<byte>, when: int)
    requires sem == RedisSemantics(sem.dbnum, sem.known, other)
    ensures ExecAll(sem, c, [PexpireAt(key, when)]) == c.(data := SetExpire(c.data, (c.db, key), when))
  {
    hide KindOf, IsNamed, Strtol, Decimal;
    var argv := PexpireAt(key, when);
    PexpireatName(argv);
    StrtolOfDecimal(when);
    assert ExecAll(sem, c, [argv]) == ExecAll(sem, Exec(sem, c, argv), []);
  }

  // ----- the whole dataset --------------------------------------------------------------------------

  datatype Stored = Stored(key: seq<byte>, obj: Object, expire: Option<int>)

  function EntryCommands(e: Stored, per: nat): seq<Argv>
    requires per > 0
  {
    ObjectCommands(e.key, e.obj, per) + if e.expire.Some? then [PexpireAt(e.key, e.expire.value)] else []
  }

  function DbCommands(entries: seq<Stored>, per: nat): seq<Argv>
    requires per > 0
  {
    if entries == [] then []
    else DbCommands(entries[..|entries| - 1], per) + EntryCommands(entries[|entries| - 1], per)
  }

  /** The databases in order; an empty one is skipped, SELECT included. */
  function RioCommands(dbs: seq<seq<Stored>>, per: nat): seq<Argv>
    requires per > 0
  {
    if dbs == [] then [] else
    var j := |dbs| - 1;
    RioCommands(dbs[..j], per) + if dbs[j] == [] then [] else [SelectCommand(j)] + DbCommands(dbs[j], per)
  }

  /** rewriteAppendOnlyFileRio without its reads from the parent. */
  method RewriteAppendOnlyFileRio(dbs: seq<seq<Stored>>, per: nat) returns (out: seq<byte>)
    requires per > 0
    ensures out == PrintAll(RioCommands(dbs, per))
  {
    hide PrintAll, PrintCommand, DbCommands;
    out := [];
    PrintNothing();
    var j := 0;
    assert dbs[..0] == [];
    while j < |dbs|
      invariant j <= |dbs|
      invariant out == PrintAll(RioCommands(dbs[..j], per))
    {
      assert dbs[..j + 1][..j] == dbs[..j] && dbs[..j + 1][j] == dbs[j];
      if |dbs[j]| > 0 {
        var select := SelectCommand(j);
        out := CatAppendOnlyGenericCommand(out, select);
        PrintAllSnoc(RioCommands(dbs[..j], per), select);
        out := RewriteDb(out, dbs[j], per);
        PrintAllAppend(RioCommands(dbs[..j], per) + [select], DbCommands(dbs[j], per));
        assert RioCommands(dbs[..j], per) + [select] + DbCommands(dbs[j], per)
            == RioCommands(dbs[..j], per) + ([select] + DbCommands(dbs[j], per));
      } else {
        assert RioCommands(dbs[..j], per) + [] == RioCommands(dbs[..j], per);
      }
      j := j + 1;
    }
    assert dbs[..j] == dbs;
  }

  /** The entries of one database: the object, then its expiry. */
  method RewriteDb(r: seq<byte>, entries: seq<Stored>, per: nat) returns (out: seq<byte>)
    requires per > 0
    ensures out == r + PrintAll(DbCommands(entries, per))
  {
    hide PrintAll, PrintCommand, ObjectCommands;
    out := r;
    PrintNothing();
    var i := 0;
    assert entries[..0] == [] && r + [] == r;
    while i < |entries|
      invariant i <= |entries|
      invariant out == r + PrintAll(DbCommands(entries[..i], per))
    {
      var e := entries[i];
      assert entries[..i + 1][..i] == entries[..i] && entries[..i + 1][i] == e;
      PrintAllAppend(DbCommands(entries[..i], per), EntryCommands(e, per));
      out := RewriteEntry(out, e, per);
      i := i + 1;
    }
    assert entries[..i] == entries;
  }

  method RewriteEntry(r: seq<byte>, e: Stored, per: nat) returns (out: seq<byte>)
    requires per > 0
    ensures out == r + PrintAll(EntryCommands(e, per))
  {
    hide PrintAll, PrintCommand, ObjectCommands;
    out := RewriteObject(r, e.key, e.obj, per);
    PrintNothing();
    if e.expire.Some? {
      var argv := PexpireAt(e.key, e.expire.value);
      PrintSingle(argv);
      PrintAllAppend(ObjectCommands(e.key, e.obj, per), [argv]);
      out := CatAppendOnlyGenericCommand(out, argv);
    } else {
      assert ObjectCommands(e.key, e.obj, per) + [] == ObjectCommands(e.key, e.obj, per);
    }
  }

  lemma PrintNothing()
    ensures PrintAll([]) == []
  {
  }

  // ----- replaying the whole dataset ------------------------------------------------------------------

  function EntryOf(e: Stored): Entry { Entry(ValueOf(e.obj), e.expire) }

  function AddDb(d: Keyspace, j: nat, entries: seq<Stored>): Keyspace
  {
    if entries == [] then d else
    var last := entries[|entries| - 1];
    AddDb(d, j, entries[..|entries| - 1])[(j, last.key) := EntryOf(last)]
  }

  function AddAll(dbs: seq<seq<Stored>>): Keyspace
  {
    if dbs == [] then map[] else AddDb(AddAll(dbs[..|dbs| - 1]), |dbs| - 1, dbs[|dbs| - 1])
  }

  ghost predicate DistinctKeys(entries: seq<Stored>)
  {
    forall i, j :: 0 <= i < j < |entries| ==> entries[i].key != entries[j].key
  }

  /** What a dict is: no key twice, no empty aggregate. */
  ghost predicate GoodDb(entries: seq<Stored>)
  {
    DistinctKeys(entries) && forall i :: 0 <= i < |entries| ==> IsStored(entries[i].obj)
  }

  ghost predicate GoodDbs(dbs: seq<seq<Stored>>) { forall j :: 0 <= j < |dbs| ==> GoodDb(dbs[j]) }

  /** ks holds exactly the entries of the databases. */
  ghost predicate Represents(dbs: seq<seq<Stored>>, ks: Keyspace)
  {
    && (forall j, i :: 0 <= j < |dbs| && 0 <= i < |dbs[j]| ==>
          (j, dbs[j][i].key) in ks && ks[(j, dbs[j][i].key)] == EntryOf(dbs[j][i]))
    && (forall k :: k in ks ==> k.0 < |dbs| && exists i :: 0 <= i < |dbs[k.0]| && dbs[k.0][i].key == k.1)
  }

  lemma {:induction false} AddDbHolds(d: Keyspace, j: nat, entries: seq<Stored>)
    requires DistinctKeys(entries)
    ensures var r := AddDb(d, j, entries);
            forall i :: 0 <= i < |entries| ==>
              (j, entries[i].key) in r && r[(j, entries[i].key)] == EntryOf(entries[i])
    decreases |entries|
  {
    hide EntryOf;
    if entries != [] { AddDbHolds(d, j, entries[..|entries| - 1]); }
  }

  lemma {:induction false} AddDbOnly(d: Keyspace, j: nat, entries: seq<Stored>)
    ensures var r := AddDb(d, j, entries);
            && (forall k :: k in r ==> k in d || (k.0 == j && exists i :: 0 <= i < |entries| && entries[i].key == k.1))
            && (forall k :: k in d ==> k in r)
            && (forall k :: k in d && k.0 != j ==> r[k] == d[k])
    decreases |entries|
  {
    hide EntryOf;
    if entries != [] {
      var n := |entries| - 1;
      AddDbOnly(d, j, entries[..n]);
      assert entries[n].key == entries[n].key;
    }
  }

  lemma {:induction false} AddAllRepresents(dbs: seq<seq<Stored>>)
    requires GoodDbs(dbs)
    ensures Represents(dbs, AddAll(dbs))
    decreases |dbs|
  {
    if dbs != [] {
      var n := |dbs| - 1;
      var init := dbs[..n];
      AddAllRepresents(init);
      var d := AddAll(init);
      assert GoodDb(dbs[n]);
      AddDbHolds(d, n, dbs[n]);
      AddDbOnly(d, n, dbs[n]);
      var r := AddDb(d, n, dbs[n]);
      forall k | k in r
        ensures k.0 < |dbs| && exists i :: 0 <= i < |dbs[k.0]| && dbs[k.0][i].key == k.1
      {
        if k in d { assert init[k.0] == dbs[k.0]; }
      }
    }
  }

  lemma RepresentsUnique(dbs: seq<seq<Stored>>, a: Keyspace, b: Keyspace)
    requires Represents(dbs, a) && Represents(dbs, b)
    ensures a == b
  {
    assert forall k :: k in a ==> k in b && a[k] == b[k];
    assert forall k :: k in b ==> k in a;
  }

  lemma ReplayEntry(sem: Semantics<Keyspace>, other: (Keyspace, nat, Argv) -> Keyspace, c: Client<Keyspace>, e: Stored,
                    per: nat)
    requires sem == RedisSemantics(sem.dbnum, sem.known, other)
    requires per > 0 && IsStored(e.obj) && (c.db, e.key) !in c.data
    ensures ExecAll(sem, c, EntryCommands(e, per)) == c.(data := c.data[(c.db, e.key) := EntryOf(e)])
  {
    hide ExecAll, ObjectCommands, PexpireAt;
    ReplayObject(sem, other, c, e.key, e.obj, per);
    var body := ObjectCommands(e.key, e.obj, per);
    if e.expire.Some? {
      ExecAllAppend(sem, c, body, [PexpireAt(e.key, e.expire.value)]);
      ReplayExpire(sem, other, ExecAll(sem, c, body), e.key, e.expire.value);
      var k := (c.db, e.key);
      assert SetExpire(c.data[k := Entry(ValueOf(e.obj), None)], k, e.expire.value) == c.data[k := EntryOf(e)];
    } else {
      assert body + [] == body;
    }
  }

  lemma {:induction false} ReplayDb(sem: Semantics<Keyspace>, other: (Keyspace, nat, Argv) -> Keyspace,
                                    c: Client<Keyspace>, entries: seq<Stored>, per: nat)
    requires sem == RedisSemantics(sem.dbnum, sem.known, other)
    requires per > 0 && GoodDb(entries) && forall k :: k in c.data ==> k.0 != c.db
    ensures ExecAll(sem, c, DbCommands(entries, per)) == c.(data := AddDb(c.data, c.db, entries))
    decreases |entries|
  {
    hide Exec, EntryCommands;
    if entries == [] {
      assert ExecAll(sem, c, []) == c;
    } else {
      var n := |entries| - 1;
      var init, last := entries[..n], entries[n];
      ReplayDb(sem, other, c, init, per);
      AddDbOnly(c.data, c.db, init);
      var c1 := c.(data := AddDb(c.data, c.db, init));
      ExecAllAppend(sem, c, DbCommands(init, per), EntryCommands(last, per));
      ReplayEntry(sem, other, c1, last, per);
    }
  }

  lemma {:induction false} ReplayRio(sem: Semantics<Keyspace>, other: (Keyspace, nat, Argv) -> Keyspace,
                                     dbs: seq<seq<Stored>>, per: nat)
    requires sem == RedisSemantics(sem.dbnum, sem.known, other)
    requires per > 0 && GoodDbs(dbs) && |dbs| <= sem.dbnum
    ensures ExecAll(sem, Start(sem), RioCommands(dbs, per)).data == AddAll(dbs)
    decreases |dbs|
  {
    hide Exec, DbCommands, SelectCommand, ExecAll;
    if dbs == [] {
      NothingReplayed(sem, Start(sem));
    } else {
      var n := |dbs| - 1;
      var init := dbs[..n];
      ReplayRio(sem, other, init, per);
      AddAllRepresents(init);
      assert GoodDb(dbs[n]);
      var c := ExecAll(sem, Start(sem), RioCommands(init, per));
      if dbs[n] == [] {
        assert RioCommands(init, per) + [] == RioCommands(init, per);
      } else {
        ExecAllAppend(sem, Start(sem), RioCommands(init, per), [SelectCommand(n)] + DbCommands(dbs[n], per));
        ExecAllAppend(sem, c, [SelectCommand(n)], DbCommands(dbs[n], per));
        SelectOne(sem, c, n);
        assert forall k :: k in c.data ==> k.0 < n;
        ReplayDb(sem, other, c.(db := n), dbs[n], per);
      }
    }
  }

  lemma NothingReplayed(sem: Semantics<Keyspace>, c: Client<Keyspace>)
    ensures ExecAll(sem, c, []) == c
  {
  }

  lemma SelectOne(sem: Semantics<Keyspace>, c: Client<Keyspace>, db: nat)
    requires db < sem.dbnum
    ensures ExecAll(sem, c, [SelectCommand(db)]) == c.(db := db)
  {
    SelectRuns(sem, c, db);
    hide Exec;
    var argv := SelectCommand(db);
    assert ExecAll(sem, c, [argv]) == ExecAll(sem, Exec(sem, c, argv), []);
  }

  /** The rewritten commands, replayed on an empty server, rebuild every key of every
      database: value and expiry, whatever the batch size and the iteration order. */
  lemma RewriteRebuilds(sem: Semantics<Keyspace>, other: (Keyspace, nat, Argv) -> Keyspace, dbs: seq<seq<Stored>>,
                        per: nat, ks: Keyspace)
    requires sem == RedisSemantics(sem.dbnum, sem.known, other)
    requires per > 0 && GoodDbs(dbs) && |dbs| <= sem.dbnum && Represents(dbs, ks)
    ensures ExecAll(sem, Start(sem), RioCommands(dbs, per)).data == ks
  {
    hide ExecAll, RioCommands;
    ReplayRio(sem, other, dbs, per);
    AddAllRepresents(dbs);
    RepresentsUnique(dbs, AddAll(dbs), ks);
  }

  // ----- the rewrite as the snapshot of a run ----------------------------------------------------------

  /** The names a Redis server looks up while it loads a rewritten log. */
  ghost predicate KnowsNames(known: seq<byte> -> bool)
  {
    && known(Ascii("set")) && known(Ascii("pexpireat")) && known(Ascii("select")) && known(Ascii("multi"))
    && known(Ascii("exec")) && known(Ascii("rpush")) && known(Ascii("sadd")) && known(Ascii("zadd"))
    && known(Ascii("hmset"))
  }

  const LONG_MAX := 0x7fff_ffff_ffff_ffff

  ghost predicate StorableObject(o: Object)
  {
    forall i :: 0 <= i < |Groups(o)| ==> StorableArgs(Groups(o)[i])
  }

  /** Keys and elements of long length, expiry times that are a long long. */
  ghost predicate StorableEntry(e: Stored)
  {
    && |e.key| <= LONG_MAX && StorableObject(e.obj)
    && (e.expire.Some? ==> -LONG_MAX <= e.expire.value <= LONG_MAX)
  }

  ghost predicate StorableDbs(dbs: seq<seq<Stored>>)
  {
    forall j, i :: 0 <= j < |dbs| && 0 <= i < |dbs[j]| ==> StorableEntry(dbs[j][i])
  }

  lemma {:induction false} StorableConcat(groups: seq<Argv>)
    requires forall i :: 0 <= i < |groups| ==> StorableArgs(groups[i])
    ensures StorableArgs(Concat(groups))
  {
    if groups != [] { StorableConcat(groups[1..]); }
  }

  lemma KnownCollection(name: seq<byte>, kind: Kind, known: seq<byte> -> bool)
    requires Collection(name, kind) && KnowsNames(known)
    ensures known(Lower(name)) && |name| <= 5
  {
    CollectionNames();
    hide Lower, Ascii;
  }

  lemma CollectionNames()
    ensures Lower(Ascii("RPUSH")) == Ascii("rpush") && |Ascii("RPUSH")| == 5
    ensures Lower(Ascii("SADD")) == Ascii("sadd") && |Ascii("SADD")| == 4
    ensures Lower(Ascii("ZADD")) == Ascii("zadd") && |Ascii("ZADD")| == 4
    ensures Lower(Ascii("HMSET")) == Ascii("hmset") && |Ascii("HMSET")| == 5
  {
  }

  lemma {:induction false} BatchesLogged(sem: Semantics<Keyspace>, name: seq<byte>, key: seq<byte>, groups: seq<Argv>,
                                         width: nat, per: nat, kind: Kind)
    requires Collection(name, kind) && KnowsNames(sem.known) && Uniform(groups, width) && 1 <= width <= 2
    requires 0 < per <= 0x3fff_fffe && |key| <= LONG_MAX
    requires forall i :: 0 <= i < |groups| ==> StorableArgs(groups[i])
    ensures LogCommands(sem, Batches(name, key, groups, per))
    decreases |groups|
  {
    hide KindOf, IsNamed, KnowsNames, Concat;
    if groups != [] {
      var m := Min(per, |groups|);
      var args := Concat(groups[..m]);
      var argv := [name, key] + args;
      StorableConcat(groups[..m]);
      ConcatLength(groups[..m], width);
      assert |args| <= 2 * m;
      KnownCollection(name, kind, sem.known);
      CollectionKind(name, kind, argv);
      assert LogCommand(sem, argv);
      BatchesLogged(sem, name, key, groups[m..], width, per, kind);
    }
  }

  lemma DecimalShort(n: int)
    requires -LONG_MAX <= n <= LONG_MAX
    ensures |Decimal(n)| <= 21
  {
    DigitsOfWord(if n < 0 then -n else n);
  }

  lemma {:induction false} EntryLogged(sem: Semantics<Keyspace>, e: Stored, per: nat)
    requires KnowsNames(sem.known) && 0 < per <= 0x3fff_fffe && StorableEntry(e)
    ensures LogCommands(sem, EntryCommands(e, per))
  {
    hide KindOf, IsNamed, Batches, Groups, Decimal;
    if e.expire.Some? {
      var argv := PexpireAt(e.key, e.expire.value);
      PexpireatName(argv);
      DecimalShort(e.expire.value);
      assert Lower(Ascii("PEXPIREAT")) == Ascii("pexpireat");
      assert LogCommand(sem, argv);
    }
    if e.obj.StrObj? {
      StringLogged(sem, e);
    } else {
      GroupsBuild(e.obj);
      BatchesLogged(sem, NameOf(e.obj), e.key, Groups(e.obj), Width(e.obj), per, CollectionOf(e.obj));
    }
  }

  lemma StringLogged(sem: Semantics<Keyspace>, e: Stored)
    requires KnowsNames(sem.known) && StorableEntry(e) && e.obj.StrObj?
    ensures LogCommand(sem, [Ascii("SET"), e.key, Text(e.obj.text)])
  {
    hide KindOf, IsNamed;
    var argv := [Ascii("SET"), e.key, Text(e.obj.text)];
    ShortNames(argv);
    assert Lower(Ascii("SET")) == Ascii("set");
    assert Groups(e.obj)[0] == [Text(e.obj.text)];
    assert Text(e.obj.text) in Groups(e.obj)[0];
  }

  lemma {:induction false} DbLogged(sem: Semantics<Keyspace>, entries: seq<Stored>, per: nat)
    requires KnowsNames(sem.known) && 0 < per <= 0x3fff_fffe
    requires forall i :: 0 <= i < |entries| ==> StorableEntry(entries[i])
    ensures LogCommands(sem, DbCommands(entries, per))
    decreases |entries|
  {
    hide EntryCommands, LogCommand, KnowsNames;
    if entries != [] {
      DbLogged(sem, entries[..|entries| - 1], per);
      EntryLogged(sem, entries[|entries| - 1], per);
    }
  }

  lemma {:induction false} RioLogged(sem: Semantics<Keyspace>, dbs: seq<seq<Stored>>, per: nat)
    requires KnowsNames(sem.known) && 0 < per <= 0x3fff_fffe && StorableDbs(dbs) && |dbs| <= LONG_MAX
    ensures LogCommands(sem, RioCommands(dbs, per))
    decreases |dbs|
  {
    hide DbCommands, SelectCommand, LogCommand;
    if dbs != [] {
      var n := |dbs| - 1;
      RioLogged(sem, dbs[..n], per);
      DbLogged(sem, dbs[n], per);
      SelectLogged(sem, n);
    }
  }

  /** What the forked child writes is a snapshot in the sense of AofRun: the premise on
      forks in Durable and RewriteInEveryRun is met by rewriteAppendOnlyFileRio. */
  lemma RewriteIsSnapshot(sem: Semantics<Keyspace>, other: (Keyspace, nat, Argv) -> Keyspace, dbs: seq<seq<Stored>>,
                          per: nat, ks: Keyspace)
    requires sem == RedisSemantics(sem.dbnum, sem.known, other) && KnowsNames(sem.known)
    requires 0 < per <= 0x3fff_fffe && |dbs| <= sem.dbnum <= LONG_MAX
    requires GoodDbs(dbs) && StorableDbs(dbs) && Represents(dbs, ks)
    ensures Tracks(sem, PrintAll(RioCommands(dbs, per)), ks, -1, false)
  {
    hide RioCommands, ExecAll, PrintAll;
    RewriteRebuilds(sem, other, dbs, per, ks);
    RioLogged(sem, dbs, per);
    LogCommandsAreGood(sem, RioCommands(dbs, per));
    DoneTracks(sem, RioCommands(dbs, per));
  }

  // ----- live execution against replay -----------------------------------------------------------------

  /** What the server does at clock `now` for the commands that are logged translated. */
  function RedisLive(other: (Keyspace, nat, Argv) -> Keyspace, d: Keyspace, db: nat, argv: Argv, now: int): Keyspace
  {
    var n := |argv|;
    if n >= 3 && IsNamed(argv, "expire") then SetExpire(d, (db, argv[1]), Strtol(argv[2]) * 1000 + now)
    else if n >= 3 && IsNamed(argv, "pexpire") then SetExpire(d, (db, argv[1]), Strtol(argv[2]) + now)
    else if n >= 3 && IsNamed(argv, "expireat") then SetExpire(d, (db, argv[1]), Strtol(argv[2]) * 1000)
    else if n >= 4 && IsNamed(argv, "setex") then
      d[(db, argv[1]) := Entry(Str(argv[3]), Some(Strtol(argv[2]) * 1000 + now))]
    else if n >= 4 && IsNamed(argv, "psetex") then
      d[(db, argv[1]) := Entry(Str(argv[3]), Some(Strtol(argv[2]) + now))]
    else if n > 3 && IsNamed(argv, "set") then
      var ex, px := OptionValue(argv, "ex", n), OptionValue(argv, "px", n);
      d[(db, argv[1]) := Entry(Str(argv[2]),
        if px.Some? then Some(Strtol(px.value) + now)
        else if ex.Some? then Some(Strtol(ex.value) * 1000 + now)
        else None)]
    else ExecOn(other, d, db, argv)
  }

  function RedisDataset(dbnum: nat, known: seq<byte> -> bool, other: (Keyspace, nat, Argv) -> Keyspace)
    : Dataset<Keyspace>
  {
    Dataset(RedisSemantics(dbnum, known, other), (d, db, argv, now) => RedisLive(other, d, db, argv, now))
  }

  lemma ReplayExpireOf(sem: Semantics<Keyspace>, other: (Keyspace, nat, Argv) -> Keyspace, c: Client<Keyspace>,
                       key: seq<byte>, seconds: bool, arg: Option<seq<byte>>, now: int)
    requires sem == RedisSemantics(sem.dbnum, sem.known, other)
    ensures ExecAll(sem, c, ExpireOf(key, seconds, arg, now)) ==
      if arg.Some? then c.(data := SetExpire(c.data, (c.db, key), When(seconds, true, arg.value, now))) else c
  {
    hide PexpireAt, Exec;
    if arg.Some? { ReplayExpire(sem, other, c, key, When(seconds, true, arg.value, now)); }
  }

  lemma {:induction false} ReplaySetAndExpire(sem: Semantics<Keyspace>, other: (Keyspace, nat, Argv) -> Keyspace,
                                              c: Client<Keyspace>, plain: Argv, a: seq<Argv>, when: int)
    requires sem == RedisSemantics(sem.dbnum, sem.known, other)
    requires |plain| == 3 && IsNamed(plain, "set") && IsPlain(plain)
    requires a == [PexpireAt(plain[1], when)]
    ensures ExecAll(sem, c, [plain] + a)
         == c.(data := c.data[(c.db, plain[1]) := Entry(Str(plain[2]), Some(when))])
  {
    hide IsNamed, PexpireAt, Strtol;
    ReplayPlainSet(sem, other, c, plain);
    ExecAllAppend(sem, c, [plain], a);
    var k := (c.db, plain[1]);
    var d1 := c.data[k := Entry(Str(plain[2]), None)];
    ReplayExpire(sem, other, c.(data := d1), plain[1], when);
    assert SetExpire(d1, k, when) == c.data[k := Entry(Str(plain[2]), Some(when))];
  }

  lemma ReplayPlainSet(sem: Semantics<Keyspace>, other: (Keyspace, nat, Argv) -> Keyspace, c: Client<Keyspace>,
                       plain: Argv)
    requires sem == RedisSemantics(sem.dbnum, sem.known, other)
    requires |plain| == 3 && IsNamed(plain, "set") && IsPlain(plain)
    ensures ExecAll(sem, c, [plain]) == c.(data := c.data[(c.db, plain[1]) := Entry(Str(plain[2]), None)])
  {
    hide IsNamed, Strtol;
    assert KindOf(plain) == KSet;
    assert ExecAll(sem, c, [plain]) == ExecAll(sem, Exec(sem, c, plain), []);
  }

  lemma SetIsPlain(argv: Argv)
    requires IsNamed(argv, "set")
    ensures IsPlain(argv)
  {
    NamesByLength();
  }

  lemma UpperSet(key: seq<byte>, text: seq<byte>)
    ensures IsNamed([Ascii("SET"), key, text], "set")
  {
    assert Lower(Ascii("SET")) == Ascii("set");
  }

  lemma ReplaySetOptions(sem: Semantics<Keyspace>, other: (Keyspace, nat, Argv) -> Keyspace, c: Client<Keyspace>,
                         plain: Argv, ex: Option<seq<byte>>, px: Option<seq<byte>>, now: int)
    requires sem == RedisSemantics(sem.dbnum, sem.known, other)
    requires |plain| == 3 && IsNamed(plain, "set") && IsPlain(plain)
    ensures ExecAll(sem, c, [plain] + ExpireOf(plain[1], true, ex, now) + ExpireOf(plain[1], false, px, now)) ==
      c.(data := c.data[(c.db, plain[1]) := Entry(Str(plain[2]),
        if px.Some? then Some(When(false, true, px.value, now))
        else if ex.Some? then Some(When(true, true, ex.value, now))
        else None)])
  {
    hide IsNamed, PexpireAt, Strtol, When, ExpireOf, ExecAll;
    var k := (c.db, plain[1]);
    var a, b := ExpireOf(plain[1], true, ex, now), ExpireOf(plain[1], false, px, now);
    ReplayPlainSet(sem, other, c, plain);
    ExecAllAppend(sem, c, [plain] + a, b);
    ExecAllAppend(sem, c, [plain], a);
    var c1 := ExecAll(sem, c, [plain]);
    ReplayExpireOf(sem, other, c1, plain[1], true, ex, now);
    ReplayExpireOf(sem, other, ExecAll(sem, c1, a), plain[1], false, px, now);
    SetThenExpire(c.data, k, Str(plain[2]));
  }

  lemma SetThenExpire(d: Keyspace, k: Key, v: Value)
    ensures forall w :: SetExpire(d[k := Entry(v, None)], k, w) == d[k := Entry(v, Some(w))]
    ensures forall u, w :: SetExpire(d[k := Entry(v, Some(u))], k, w) == d[k := Entry(v, Some(w))]
  {
    forall w ensures SetExpire(d[k := Entry(v, None)], k, w) == d[k := Entry(v, Some(w))] { }
    forall u, w ensures SetExpire(d[k := Entry(v, Some(u))], k, w) == d[k := Entry(v, Some(w))] { }
  }

  /** EXPIRE, PEXPIRE, EXPIREAT, SETEX, PSETEX and SET with EX or PX mean the same as the
      absolute commands they are logged as, at the clock they ran; other commands are
      logged as they are. */
  lemma TranslationPreservesMeaning(dbnum: nat, known: seq<byte> -> bool, other: (Keyspace, nat, Argv) -> Keyspace,
                                    d: Keyspace, db: nat, argv: Argv, now: int)
    requires argv != [] && IsPlain(argv)
    ensures var sem := RedisSemantics(dbnum, known, other);
            ExecAll(sem, Client(db, d), Translate(argv, now)) == Client(db, RedisLive(other, d, db, argv, now))
  {
    hide IsNamed, Strtol, OptionValue, ExecAll, Exec, ExpireOf, ExecOn, PexpireAt;
    var sem := RedisSemantics(dbnum, known, other);
    var c := Client(db, d);
    var n := |argv|;
    if n >= 3 && (IsNamed(argv, "expire") || IsNamed(argv, "pexpire") || IsNamed(argv, "expireat")) {
      var seconds := IsNamed(argv, "expire") || !IsNamed(argv, "pexpire");
      var relative := IsNamed(argv, "expire") || IsNamed(argv, "pexpire");
      ReplayExpire(sem, other, c, argv[1], When(seconds, relative, argv[2], now));
    } else if n >= 4 && (IsNamed(argv, "setex") || IsNamed(argv, "psetex")) {
      var plain := [Ascii("SET"), argv[1], argv[3]];
      UpperSet(argv[1], argv[3]);
      SetIsPlain(plain);
      var when := When(IsNamed(argv, "setex"), true, argv[2], now);
      ReplaySetAndExpire(sem, other, c, plain, [PexpireAt(argv[1], when)], when);
      assert [plain] + [PexpireAt(argv[1], when)] == [plain, PexpireAt(argv[1], when)];
    } else if n > 3 && IsNamed(argv, "set") {
      SameName(argv, argv[..3]);
      SetIsPlain(argv[..3]);
      ReplaySetOptions(sem, other, c, argv[..3], OptionValue(argv, "ex", n), OptionValue(argv, "px", n), now);
    } else {
      ReplayOther(sem, other, c, argv);
    }
  }

  lemma SameName(a: Argv, b: Argv)
    requires a != [] && b != [] && a[0] == b[0]
    ensures IsNamed(a, "set") == IsNamed(b, "set")
  {
  }

  lemma ReplayOther(sem: Semantics<Keyspace>, other: (Keyspace, nat, Argv) -> Keyspace, c: Client<Keyspace>, argv: Argv)
    requires sem == RedisSemantics(sem.dbnum, sem.known, other) && IsPlain(argv)
    ensures ExecAll(sem, c, [argv]) == c.(data := ExecOn(other, c.data, c.db, argv))
  {
    hide IsNamed, ExecOn;
    assert ExecAll(sem, c, [argv]) == ExecAll(sem, Exec(sem, c, argv), []);
  }

  /** The concrete dataset satisfies the law the runs of AofRun rely on. */
  lemma RedisIsLawful(dbnum: nat, known: seq<byte> -> bool, other: (Keyspace, nat, Argv) -> Keyspace)
    requires KnowsNames(known)
    ensures Lawful(RedisDataset(dbnum, known, other))
  {
    hide IsNamed, Translate, ExecAll, RedisLive, KnowsNames;
    var ds := RedisDataset(dbnum, known, other);
    assert known(Ascii("select")) && known(Ascii("multi")) && known(Ascii("exec")) by { KnowsMarkers(known); }
    forall d: Keyspace, db: nat, argv: Argv, now: int | Feedable(ds, db, argv, now)
      ensures ExecAll(ds.sem, Client(db, d), Translate(argv, now)) == Client(db, ds.live(d, db, argv, now))
    {
      FeedableIsPlain(ds, db, argv, now);
      TranslationPreservesMeaning(dbnum, known, other, d, db, argv, now);
    }
  }

  lemma KnowsMarkers(known: seq<byte> -> bool)
    requires KnowsNames(known)
    ensures known(Ascii("select")) && known(Ascii("multi")) && known(Ascii("exec"))
  {
  }

  /** A propagated command is not empty and is none of MULTI, EXEC, SELECT. */
  lemma FeedableIsPlain(ds: Dataset<Keyspace>, db: nat, argv: Argv, now: int)
    ensures argv == [] || !IsPlain(argv) ==> !Feedable(ds, db, argv, now)
  {
    NamesByLength();
    NamesOfExpiry();
    if argv == [] || IsNamed(argv, "multi") || IsNamed(argv, "exec") {
      assert Translate(argv, now)[0] == argv;
      assert !LogCommand(ds.sem, argv);
    }
  }

  lemma NamesOfExpiry()
    ensures |Ascii("expire")| == |Ascii("psetex")| == 6 && |Ascii("pexpire")| == 7 && |Ascii("expireat")| == 8
    ensures |Ascii("setex")| == 5 && Ascii("setex")[0] != Ascii("multi")[0]
  {
  }
}
