/** The key of a request, by which predixy routes it: where the parser sees it begin and end. */
module RequestKeys {
  import opened Bytes
  import opened AofFormat
  import opened Options
  import opened RequestFormat

  /** isKey: argument i is the key of the request it falls into. */
  predicate IsKey(c: Cmd, i: int, split: bool)
  {
    match ModeOf(c)
    case MultiKey => if split then i > 0 else i == 1
    case MultiKeyVal => if split then i % 2 == 1 else i == 1
    case SMultiKey => i > 0
  }

  /** The offsets in the stream of the key's first byte, and of the byte behind its last, if
      they have been seen. */
  datatype Key = Key(from: Option<nat>, to: Option<nat>)
  const NO_KEY := Key(None, None)

  /** The key was seen before the byte number `at`. */
  predicate SeenBefore(k: Key, at: nat)
  {
    (k.from.Some? ==> k.from.value < at) && (k.to.Some? ==> k.to.value < at)
  }

  /** The byte number `at` of the stream. */
  function KeyStep(at: nat, k: Key, s: State, ch: byte, split: bool): Key
  {
    if !s.phase.ArgBody? || !IsKey(s.phase.cmd, s.phase.i, split) then k
    else Key(if s.phase.cnt == 0 then Some(at) else k.from,
             if s.phase.cnt >= s.phase.len && ch == CR then Some(at) else k.to)
  }

  /** The keys of all pieces of a stream, and the one in progress at its end. */
  datatype Keying = Keying(keys: seq<Key>, key: Key)

  function Keyed(at: nat, k: Key, s: State, bytes: seq<byte>, split: bool): Keying
    decreases |bytes|
  {
    if bytes == [] then Keying([], k) else
    var t, own := Step(s, bytes[0], split), KeyStep(at, k, s, bytes[0], split);
    var r := Keyed(at + 1, if t.out.Some? && t.out.value.last then NO_KEY else own, t.state, bytes[1..], split);
    Keying((if t.out.Some? then [own] else []) + r.keys, r.key)
  }

  /** One for each piece. */
  lemma {:induction false} KeyEach(at: nat, k: Key, s: State, bytes: seq<byte>, split: bool)
    ensures |Keyed(at, k, s, bytes, split).keys| == |Cuts(s, bytes, split).pieces|
    decreases |bytes|
  {
    hide Step, KeyStep;
    if bytes != [] {
      var t, own := Step(s, bytes[0], split), KeyStep(at, k, s, bytes[0], split);
      KeyEach(at + 1, if t.out.Some? && t.out.value.last then NO_KEY else own, t.state, bytes[1..], split);
    }
  }

  lemma KeyedFirst(at: nat, k: Key, s: State, ch: byte, more: seq<byte>, split: bool)
    ensures var t, own := Step(s, ch, split), KeyStep(at, k, s, ch, split);
            var r := Keyed(at + 1, if t.out.Some? && t.out.value.last then NO_KEY else own, t.state, more, split);
            Keyed(at, k, s, [ch] + more, split) == Keying((if t.out.Some? then [own] else []) + r.keys, r.key)
  {
    hide Step, KeyStep;
    assert ([ch] + more)[1..] == more;
  }

  lemma KeysAssoc(a: seq<Key>, b: seq<Key>, c: seq<Key>)
    ensures a + (b + c) == a + b + c && [] + c == c
  {
  }

  /** However the stream is cut. */
  lemma {:induction false} KeyedAppend(at: nat, k: Key, s: State, a: seq<byte>, b: seq<byte>, split: bool)
    ensures var r := Keyed(at, k, s, a, split);
            var q := Keyed(at + |a|, r.key, Cuts(s, a, split).state, b, split);
            Keyed(at, k, s, a + b, split) == Keying(r.keys + q.keys, q.key)
    decreases |a|
  {
    hide Step, KeyStep, Keyed, Cuts;
    if a == [] {
      NothingKeyed(at, k, s, split);
      assert a + b == b;
      KeysAssoc([], [], Keyed(at, k, s, b, split).keys);
    } else {
      var t, own := Step(s, a[0], split), KeyStep(at, k, s, a[0], split);
      var next := if t.out.Some? && t.out.value.last then NO_KEY else own;
      KeyedAppend(at + 1, next, t.state, a[1..], b, split);
      KeyedFirst(at, k, s, a[0], a[1..] + b, split);
      KeyedFirst(at, k, s, a[0], a[1..], split);
      CutsFirst(s, a[0], a[1..], split);
      HeadFirst(a, b);
      var r := Keyed(at + 1, next, t.state, a[1..], split);
      var q := Keyed(at + |a|, r.key, Cuts(s, a, split).state, b, split);
      KeysAssoc(if t.out.Some? then [own] else [], r.keys, q.keys);
    }
  }

  lemma NothingKeyed(at: nat, k: Key, s: State, split: bool)
    ensures Keyed(at, k, s, [], split) == Keying([], k) && Cuts(s, [], split) == Cutting([], s)
  {
  }

  lemma KeyedOne(at: nat, k: Key, s: State, ch: byte, split: bool)
    ensures var t, own := Step(s, ch, split), KeyStep(at, k, s, ch, split);
            Keyed(at, k, s, [ch], split)
            == Keying(if t.out.Some? then [own] else [], if t.out.Some? && t.out.value.last then NO_KEY else own)
  {
    hide Step, KeyStep;
    KeyedFirst(at, k, s, ch, [], split);
    assert [ch] + [] == [ch];
    var t, own := Step(s, ch, split), KeyStep(at, k, s, ch, split);
    NothingKeyed(at + 1, if t.out.Some? && t.out.value.last then NO_KEY else own, t.state, split);
  }

  // ----- before the first argument --------------------------------------------------------------

  /** The argument that a phase is in, or 0. */
  function Index(p: Phase): int
  {
    match p
    case Number(ArgLength(_, _, i), _) => i
    case NumberLF(ArgLength(_, _, i), _) => i
    case ArgTag(_, _, i) => i
    case ArgBody(_, _, i, _, _) => i
    case ArgBodyLF(_, _, i) => i
    case _ => 0
  }

  /** Up to the body of the first argument there is no key. */
  predicate NoneYet(s: State, k: Key)
  {
    s.phase in {Failed, OtherCommand} ||
    (Index(s.phase) >= 0 &&
     (Index(s.phase) == 0 || (Index(s.phase) == 1 && !s.phase.ArgBody? && !s.phase.ArgBodyLF?) ==> k == NO_KEY))
  }

  lemma NoneYetStep(at: nat, k: Key, s: State, ch: byte, split: bool)
    requires NoneYet(s, k)
    ensures var t := Step(s, ch, split);
            NoneYet(t.state, if t.out.Some? && t.out.value.last then NO_KEY else KeyStep(at, k, s, ch, split))
  {
    hide IsSplit, Find, GoodCount;
  }

  lemma {:induction false} NoKeyBefore(at: nat, k: Key, s: State, bytes: seq<byte>, split: bool)
    requires NoneYet(s, k)
    ensures NoneYet(Cuts(s, bytes, split).state, Keyed(at, k, s, bytes, split).key)
    decreases |bytes|
  {
    hide Step, KeyStep, NoneYet;
    if bytes != [] {
      var t, own := Step(s, bytes[0], split), KeyStep(at, k, s, bytes[0], split);
      NoneYetStep(at, k, s, bytes[0], split);
      NoKeyBefore(at + 1, if t.out.Some? && t.out.value.last then NO_KEY else own, t.state, bytes[1..], split);
    }
  }

  // ----- one argument ------------------------------------------------------------------------------

  /** In argument i, which began with key k0: the key in progress. */
  predicate Within(at: nat, i: int, k0: Key, s: State, k: Key, split: bool)
  {
    && (Index(s.phase) >= i || s.phase == Failed)
    && (Index(s.phase) == i ==>
          match s.phase
          case ArgBody(c, _, _, _, cnt) =>
            0 <= cnt <= at && k == if IsKey(c, i, split) && cnt > 0 then Key(Some(at - cnt), k0.to) else k0
          case ArgBodyLF(_, _, _) => true
          case _ => k == k0)
  }

  lemma WithinStep(at: nat, i: int, k0: Key, k: Key, s: State, ch: byte, split: bool)
    requires i >= 1 && Within(at, i, k0, s, k, split) && Step(s, ch, split).out == None
    ensures Within(at + 1, i, k0, Step(s, ch, split).state, KeyStep(at, k, s, ch, split), split)
  {
    hide IsKey, IsSplit, Find, GoodCount;
  }

  lemma {:induction false} KeyWithin(at: nat, i: int, k0: Key, k: Key, s: State, bytes: seq<byte>, split: bool)
    requires i >= 1 && Within(at, i, k0, s, k, split) && Cuts(s, bytes, split).pieces == []
    ensures var r := Keyed(at, k, s, bytes, split);
            r.keys == [] && Within(at + |bytes|, i, k0, Cuts(s, bytes, split).state, r.key, split)
    decreases |bytes|
  {
    hide Step, KeyStep, Within;
    if bytes != [] {
      var t := Step(s, bytes[0], split);
      assert t.out == None;
      WithinStep(at, i, k0, k, s, bytes[0], split);
      KeyWithin(at + 1, i, k0, KeyStep(at, k, s, bytes[0], split), t.state, bytes[1..], split);
    }
  }

  /** Bytes of an argument's body: */
  lemma {:induction false} KeyOfBody(at: nat, k: Key, s: State, b: seq<byte>, split: bool)
    requires s.phase.ArgBody? && 0 <= s.phase.cnt && s.phase.cnt + |b| <= s.phase.len
    ensures Keyed(at, k, s, b, split) ==
      Keying([], if b != [] && s.phase.cnt == 0 && IsKey(s.phase.cmd, s.phase.i, split) then k.(from := Some(at))
                 else k)
    decreases |b|
  {
    hide IsKey;
    if b != [] {
      var t := Step(s, b[0], split).state;
      KeyOfBody(at + 1, KeyStep(at, k, s, b[0], split), t, b[1..], split);
    }
  }

  /** and all that is left of it, with the return. */
  lemma KeyOfArg(at: nat, k: Key, s: State, b: seq<byte>, split: bool)
    requires s.phase.ArgBody? && 0 <= s.phase.cnt && s.phase.cnt + |b| == s.phase.len
    ensures Keyed(at, k, s, b + [CR], split) ==
      Keying([], if !IsKey(s.phase.cmd, s.phase.i, split) then k
                 else Key(if s.phase.cnt == 0 then Some(at) else k.from, Some(at + |b|)))
  {
    hide Cuts, Keyed, IsKey;
    KeyOfBody(at, k, s, b, split);
    ReadBody(s.phase.cmd, s.phase.n, s.phase.i, s.phase.len, s.phase.cnt, b, s.req, split);
    KeyedAppend(at, k, s, b, [CR], split);
    KeyedOne(at + |b|, Keyed(at, k, s, b, split).key, Cuts(s, b, split).state, CR, split);
    KeysAssoc([], [], []);
  }

  /** The bytes before an argument's own: its tag and its length. */
  function LengthLine(arg: seq<byte>): seq<byte> { [DOLLAR] + (Digits(|arg|) + CRLF) }

  lemma ArgIs(arg: seq<byte>)
    ensures PrintArg(arg) == LengthLine(arg) + arg + [CR] + [LF]
  {
    hide Digits;
    ArgShape(arg);
    Nested(Digits(|arg|) + CRLF, arg);
  }

  lemma Nested(h: seq<byte>, arg: seq<byte>)
    ensures [DOLLAR] + (h + arg + [CR] + [LF]) == [DOLLAR] + h + arg + [CR] + [LF]
  {
  }

  /** Up to an argument's last byte. */
  lemma ReadToBody(c: Cmd, n: int, i: int, arg: seq<byte>, req: seq<byte>, split: bool)
    ensures var b := Begun(c, n, i, req, split) + (LengthLine(arg) + arg);
            Cuts(State(ArgTag(c, n, i), req), LengthLine(arg) + arg, split)
            == Cutting([], State(ArgBody(c, n, i, |arg|, |arg|), b))
  {
    hide *;
    var h, b := Digits(|arg|) + CRLF, Begun(c, n, i, req, split) + [DOLLAR];
    var start, full := Number(ArgLength(c, n, i), 0), ArgBody(c, n, i, |arg|, |arg|);
    BodyNext(c, n, i, arg);
    ReadNumber(ArgLength(c, n, i), |arg|, b, split);
    ReadBody(c, n, i, |arg|, 0, arg, b + h, split);
    Then(start, h, ArgBody(c, n, i, |arg|, 0), arg, full, b, split);
    ReadsMeans(start, h + arg, full, b, split);
    TagStep(c, n, i, req, split);
    FirstThen(State(ArgTag(c, n, i), req), DOLLAR, State(start, b), h + arg, State(full, b + (h + arg)), split);
    assert [DOLLAR] + (h + arg) == [DOLLAR] + h + arg;
    assert b + (h + arg) == Begun(c, n, i, req, split) + ([DOLLAR] + h + arg);
  }

  lemma BodyNext(c: Cmd, n: int, i: int, arg: seq<byte>)
    ensures EndNumberLF(ArgLength(c, n, i), |arg|) == ArgBody(c, n, i, |arg|, 0)
    ensures LengthLine(arg) == [DOLLAR] + (Digits(|arg|) + CRLF)
  {
  }

  lemma ReadsMeans(p: Phase, bytes: seq<byte>, q: Phase, req: seq<byte>, split: bool)
    requires Reads(p, bytes, q, req, split)
    ensures Cuts(State(p, req), bytes, split) == Cutting([], State(q, req + bytes))
  {
  }

  lemma TagStep(c: Cmd, n: int, i: int, req: seq<byte>, split: bool)
    ensures Step(State(ArgTag(c, n, i), req), DOLLAR, split)
         == Stepped(State(Number(ArgLength(c, n, i), 0), Begun(c, n, i, req, split) + [DOLLAR]), None)
  {
    hide IsSplit;
    assert [] + [DOLLAR] == [DOLLAR];
  }

  lemma FirstThen(s: State, ch: byte, t: State, more: seq<byte>, u: State, split: bool)
    requires Step(s, ch, split) == Stepped(t, None) && Cuts(t, more, split) == Cutting([], u)
    ensures Cuts(s, [ch] + more, split) == Cutting([], u)
  {
    hide Step, Cuts;
    CutsFirst(s, ch, more, split);
  }

  /** The key after an argument that began at `at`. */
  function KeyBehind(at: nat, k: Key, c: Cmd, i: int, arg: seq<byte>, split: bool): Key
  {
    var from := at + |LengthLine(arg)|;
    if IsKey(c, i, split) then Key(Some(from), Some(from + |arg|)) else k
  }

  /** One argument, printed: it is the key if it is to be one. */
  lemma KeyArg(at: nat, k: Key, c: Cmd, n: int, i: int, arg: seq<byte>, req: seq<byte>, split: bool)
    requires i >= 1
    ensures var own := KeyBehind(at, k, c, i, arg, split);
            Keyed(at, k, State(ArgTag(c, n, i), req), PrintArg(arg), split) ==
              if i + 1 == n then Keying([own], NO_KEY)
              else Keying(if IsSplit(c, n, i + 1, split) then [own] else [], own)
  {
    hide Cuts, Keyed, LengthLine, IsKey, IsSplit, PrintArg;
    var a := LengthLine(arg) + arg;
    var s := State(ArgTag(c, n, i), req);
    ArgIs(arg);
    ReadToBody(c, n, i, arg, req, split);
    KeyWithin(at, i, k, k, s, a, split);
    KeyedAppend(at, k, s, a + [CR], [LF], split);
    KeyedAppend(at, k, s, a, [CR], split);
    CutsAppend(s, a, [CR], split);
    var m := Cuts(s, a, split).state;
    LastByte(m, CR, split);
    KeyedOne(at + |a|, Keyed(at, k, s, a, split).key, m, CR, split);
    var own := KeyBehind(at, k, c, i, arg, split);
    var t := Cuts(s, a + [CR], split).state;
    KeyedOne(at + |a| + 1, own, t, LF, split);
    KeysAssoc([], [], if i + 1 == n || IsSplit(c, n, i + 1, split) then [own] else []);
  }

  // ----- all arguments -----------------------------------------------------------------------------------

  /** The bytes of a key. */
  function KeyBytes(stream: seq<byte>, k: Key): seq<byte>
  {
    if k.from.Some? && k.to.Some? && k.from.value <= k.to.value <= |stream| then stream[k.from.value..k.to.value]
    else []
  }

  /** In the stream the keys are these. */
  ghost predicate KeysAre(stream: seq<byte>, keys: seq<Key>, args: seq<seq<byte>>)
  {
    |keys| == |args| && forall j :: 0 <= j < |keys| ==> KeyIs(stream, keys[j], args[j])
  }

  ghost predicate KeyIs(stream: seq<byte>, k: Key, arg: seq<byte>)
  {
    k.from.Some? && k.to.Some? && k.from.value <= k.to.value <= |stream| && KeyBytes(stream, k) == arg
  }

  lemma KeyStays(x: seq<byte>, more: seq<byte>, k: Key, arg: seq<byte>)
    requires KeyIs(x, k, arg)
    ensures KeyIs(x + more, k, arg)
  {
    assert (x + more)[k.from.value..k.to.value] == x[k.from.value..k.to.value];
  }

  /** More of the stream, and more keys in it. */
  lemma KeysMore(x: seq<byte>, more: seq<byte>, a: seq<Key>, first: seq<seq<byte>>, b: seq<Key>, last: seq<seq<byte>>)
    requires KeysAre(x, a, first) && KeysAre(x + more, b, last)
    ensures KeysAre(x + more, a + b, first + last)
  {
    hide KeyIs;
    forall j | 0 <= j < |a| ensures KeyIs(x + more, a[j], first[j]) { KeyStays(x, more, a[j], first[j]); }
  }

  lemma KeyJust(x: seq<byte>, arg: seq<byte>, more: seq<byte>)
    ensures var from := |x| + |LengthLine(arg)|;
            KeyIs(x + (PrintArg(arg) + more), Key(Some(from), Some(from + |arg|)), arg)
  {
    hide LengthLine, PrintArg;
    ArgIs(arg);
    var h := LengthLine(arg);
    var all := x + (h + arg + [CR] + [LF] + more);
    assert all == x + h + (arg + ([CR] + [LF] + more));
    assert all[|x| + |h|..|x| + |h| + |arg|] == arg;
  }

  /** The first arguments of the pieces. */
  function Firsts(c: Cmd, args: Argv): seq<seq<byte>>
    decreases |args|
  {
    var w := if ModeOf(c) == MultiKeyVal then 2 else 1;
    if |args| < w then [] else [args[0]] + Firsts(c, args[w..])
  }

  /** Every argument is the key of its own piece. */
  lemma {:induction false} KeysOfKeys(x: seq<byte>, k: Key, c: Cmd, n: int, i: int, args: Argv, req: seq<byte>,
                                      split: bool)
    requires args != [] && n == i + |args| && ModeOf(c) != MultiKeyVal && i >= 1
    requires forall j :: i <= j ==> IsSplit(c, n, j, split) && IsKey(c, j, split)
    ensures var r := Keyed(|x|, k, State(ArgTag(c, n, i), req), PrintArgs(args), split);
            r.key == NO_KEY && KeysAre(x + PrintArgs(args), r.keys, Firsts(c, args))
    decreases |args|
  {
    hide Cuts, Keyed, IsSplit, IsKey, PrintArg, LengthLine, KeyIs;
    var a, more := PrintArg(args[0]), PrintArgs(args[1..]);
    var s := State(ArgTag(c, n, i), req);
    PrintOne(args);
    assert IsSplit(c, n, i, split) && IsKey(c, i, split);
    KeyArg(|x|, k, c, n, i, args[0], req, split);
    RequestFormat.ReadArg(c, n, i, args[0], req, split);
    KeyedAppend(|x|, k, s, a, more, split);
    KeyJust(x, args[0], more);
    var own := KeyBehind(|x|, k, c, i, args[0], split);
    if |args| > 1 {
      assert IsSplit(c, n, i + 1, split);
      KeysOfKeys(x + a, own, c, n, i + 1, args[1..], Begun(c, n, i, req, split) + a, split);
      assert x + a + more == x + (a + more);
      var rest := Keyed(|x + a|, own, State(ArgTag(c, n, i + 1), Begun(c, n, i, req, split) + a), more, split);
      KeysCons(x + (a + more), own, args[0], rest.keys, Firsts(c, args[1..]));
    } else {
      NothingKeyed(|x| + |a|, NO_KEY, START, split);
      KeysCons(x + (a + more), own, args[0], [], []);
      assert [own] + [] == [own] && Firsts(c, args[1..]) == [];
    }
  }

  lemma KeysCons(stream: seq<byte>, k: Key, arg: seq<byte>, keys: seq<Key>, args: seq<seq<byte>>)
    requires KeyIs(stream, k, arg) && KeysAre(stream, keys, args)
    ensures KeysAre(stream, [k] + keys, [arg] + args)
  {
    hide KeyIs;
  }

  /** A key and its value. */
  lemma KeyOfPair(at: nat, k: Key, c: Cmd, n: int, i: int, key: seq<byte>, value: seq<byte>, req: seq<byte>)
    requires n > 3 && ModeOf(c) == MultiKeyVal && i % 2 == 1 && i >= 1 && n % 2 == 1
    ensures var own, p := KeyBehind(at, k, c, i, key, true), PrintArg(key) + PrintArg(value);
            var s := State(ArgTag(c, n, i), req);
            && Keyed(at, k, s, p, true) == Keying([own], if i + 2 == n then NO_KEY else own)
            && Cuts(s, p, true).state == if i + 2 == n then START else State(ArgTag(c, n, i + 2), p)
  {
    hide Cuts, Keyed, PrintArg, LengthLine;
    var a, b := PrintArg(key), PrintArg(value);
    var s, t := State(ArgTag(c, n, i), req), State(ArgTag(c, n, i + 1), a);
    KeyArg(at, k, c, n, i, key, req, true);
    RequestFormat.ReadArg(c, n, i, key, req, true);
    assert [] + a == a;
    var own := KeyBehind(at, k, c, i, key, true);
    KeyArg(at + |a|, own, c, n, i + 1, value, a, true);
    RequestFormat.ReadArg(c, n, i + 1, value, a, true);
    KeyedAppend(at, k, s, a, b, true);
    CutsAppend(s, a, b, true);
    KeysAssoc([], [], [own]);
  }

  /** Every other argument is. */
  lemma {:induction false} KeysOfPairs(x: seq<byte>, k: Key, c: Cmd, n: int, i: int, args: Argv, req: seq<byte>)
    requires args != [] && |args| % 2 == 0 && n == i + |args| && n > 3 && ModeOf(c) == MultiKeyVal
    requires i % 2 == 1 && i >= 1
    ensures var r := Keyed(|x|, k, State(ArgTag(c, n, i), req), PrintArgs(args), true);
            r.key == NO_KEY && KeysAre(x + PrintArgs(args), r.keys, Firsts(c, args))
    decreases |args|
  {
    hide Cuts, Keyed, PrintArg, LengthLine, KeyIs;
    var a, b, more := PrintArg(args[0]), PrintArg(args[1]), PrintArgs(args[2..]);
    PrintPair(args);
    Pairing(x, a, b, more);
    KeyOfPair(|x|, k, c, n, i, args[0], args[1], req);
    KeyedAppend(|x|, k, State(ArgTag(c, n, i), req), a + b, more, true);
    KeyJust(x, args[0], b + more);
    var own := KeyBehind(|x|, k, c, i, args[0], true);
    if |args| > 2 {
      KeysOfPairs(x + (a + b), own, c, n, i + 2, args[2..], a + b);
      var rest := Keyed(|x + (a + b)|, own, State(ArgTag(c, n, i + 2), a + b), more, true);
      KeysCons(x + (a + (b + more)), own, args[0], rest.keys, Firsts(c, args[2..]));
    } else {
      NothingKeyed(|x| + |a + b|, NO_KEY, START, true);
      KeysCons(x + (a + (b + more)), own, args[0], [], []);
      assert [own] + [] == [own] && Firsts(c, args[2..]) == [];
    }
  }

  lemma Pairing(x: seq<byte>, a: seq<byte>, b: seq<byte>, more: seq<byte>)
    ensures a + (b + more) == a + b + more && x + (a + b) + more == x + (a + (b + more))
    ensures |x + (a + b)| == |x| + |a + b|
  {
    assert x + (a + b) + more == x + (a + b + more);
  }

  /** Further arguments of a command that stays whole are no keys. */
  lemma {:induction false} KeyOfWhole(at: nat, k: Key, c: Cmd, n: int, i: int, args: Argv, req: seq<byte>, split: bool)
    requires args != [] && n == i + |args| && i >= 2
    requires forall j :: i <= j < n ==> !IsSplit(c, n, j, split) && !IsKey(c, j, split)
    ensures Keyed(at, k, State(ArgTag(c, n, i), req), PrintArgs(args), split) == Keying([k], NO_KEY)
    decreases |args|
  {
    hide Cuts, Keyed, IsSplit, IsKey, PrintArg, LengthLine;
    var a, more := PrintArg(args[0]), PrintArgs(args[1..]);
    PrintOne(args);
    assert !IsKey(c, i, split);
    KeyArg(at, k, c, n, i, args[0], req, split);
    RequestFormat.ReadArg(c, n, i, args[0], req, split);
    KeyedAppend(at, k, State(ArgTag(c, n, i), req), a, more, split);
    if |args| > 1 {
      assert !IsSplit(c, n, i + 1, split);
      KeyOfWhole(at + |a|, k, c, n, i + 1, args[1..], Begun(c, n, i, req, split) + a, split);
      KeysAssoc([], [], [k]);
    } else {
      NothingKeyed(at + |a|, NO_KEY, START, split);
      assert [k] + [] == [k];
    }
  }

  /** The first argument is. */
  lemma FirstOfWhole(x: seq<byte>, k: Key, c: Cmd, n: int, args: Argv, req: seq<byte>, split: bool)
    requires args != [] && n == 1 + |args| && GoodCount(c, n) && !Splits(c, n, split)
    ensures var r := Keyed(|x|, k, State(ArgTag(c, n, 1), req), PrintArgs(args), split);
            r.key == NO_KEY && KeysAre(x + PrintArgs(args), r.keys, [args[0]])
  {
    hide Cuts, Keyed, PrintArg, LengthLine, KeyIs;
    var a, more := PrintArg(args[0]), PrintArgs(args[1..]);
    PrintOne(args);
    KeyArg(|x|, k, c, n, 1, args[0], req, split);
    RequestFormat.ReadArg(c, n, 1, args[0], req, split);
    KeyedAppend(|x|, k, State(ArgTag(c, n, 1), req), a, more, split);
    KeyJust(x, args[0], more);
    var own := KeyBehind(|x|, k, c, 1, args[0], split);
    KeysCons(x + (a + more), own, args[0], [], []);
    assert [own] + [] == [own] && [args[0]] + [] == [args[0]];
    if |args| > 1 {
      KeyOfWhole(|x| + |a|, own, c, n, 2, args[1..], Begun(c, n, 1, req, split) + a, split);
      KeysAssoc([], [], [own]);
    } else {
      NothingKeyed(|x| + |a|, NO_KEY, START, split);
    }
  }

  /** The keys by which the requests of a command are routed. */
  function CommandKeys(c: Cmd, args: Argv, split: bool): seq<seq<byte>>
  {
    if Splits(c, |args| + 1, split) then Firsts(c, args) else if args == [] then [] else [args[0]]
  }

  /** A printed command: the key of each piece, and of a whole command, is its first argument. */
  lemma KeysOfCommand(x: seq<byte>, name: seq<byte>, c: Cmd, args: Argv, split: bool)
    requires Lower(name) == Name(c) && args != [] && GoodCount(c, |args| + 1)
    ensures var r := Keyed(|x|, NO_KEY, START, PrintCommand([name] + args), split);
            r.key == NO_KEY && KeysAre(x + PrintCommand([name] + args), r.keys, CommandKeys(c, args, split))
  {
    hide Cuts, Keyed, PrintArg, Name, KeysAre, Firsts, Header;
    var n := |args| + 1;
    var h := Header(STAR, n) + PrintArg(name);
    ReadHead(name, c, n, split);
    PrintNamed(name, args);
    NoKeyBefore(|x|, NO_KEY, START, h, split);
    KeyEach(|x|, NO_KEY, START, h, split);
    KeyedAppend(|x|, NO_KEY, START, h, PrintArgs(args), split);
    assert |x + h| == |x| + |h| && x + h + PrintArgs(args) == x + (h + PrintArgs(args));
    KeysAssoc([], [], Keyed(|x| + |h|, NO_KEY, State(ArgTag(c, n, 1), h), PrintArgs(args), split).keys);
    if !Splits(c, n, split) {
      FirstOfWhole(x + h, NO_KEY, c, n, args, h, split);
    } else if ModeOf(c) == MultiKeyVal {
      KeysOfPairs(x + h, NO_KEY, c, n, 1, args, h);
    } else {
      KeysOfKeys(x + h, NO_KEY, c, n, 1, args, h, split);
    }
  }
}
