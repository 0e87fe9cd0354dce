/** What the reads of a client connection bring: whether commands are split is decided anew for
    every read, while a command may stretch over several. */
module RequestReads {
  import opened Bytes
  import opened AofFormat
  import opened Options
  import opened RequestFormat
  import opened RequestKeys

  /** The bytes of a read, whether they go into a new buffer, and whether commands are split. */
  datatype Read = Read(bytes: seq<byte>, newBuf: bool, split: bool)

  function Stream(input: seq<Read>): seq<byte>
  {
    if input == [] then [] else Stream(input[..|input| - 1]) + input[|input| - 1].bytes
  }

  function Same(n: nat, split: bool): (on: seq<bool>)
    ensures |on| == n && forall i :: 0 <= i < n ==> on[i] == split
  {
    seq(n, _ => split)
  }

  /** For each byte, whether it was read with splitting on. */
  function On(input: seq<Read>): (on: seq<bool>)
    ensures |on| == |Stream(input)|
  {
    if input == [] then [] else
    var last := input[|input| - 1];
    On(input[..|input| - 1]) + Same(|last.bytes|, last.split)
  }

  function CutsOn(s: State, bytes: seq<byte>, on: seq<bool>): Cutting
    requires |on| == |bytes|
    decreases |bytes|
  {
    if bytes == [] then Cutting([], s) else
    var t := Step(s, bytes[0], on[0]);
    var r := CutsOn(t.state, bytes[1..], on[1..]);
    Cutting(Out(t.out) + r.pieces, r.state)
  }

  function KeyedOn(at: nat, k: Key, s: State, bytes: seq<byte>, on: seq<bool>): Keying
    requires |on| == |bytes|
    decreases |bytes|
  {
    if bytes == [] then Keying([], k) else
    var t, own := Step(s, bytes[0], on[0]), KeyStep(at, k, s, bytes[0], on[0]);
    var r := KeyedOn(at + 1, if t.out.Some? && t.out.value.last then NO_KEY else own, t.state, bytes[1..], on[1..]);
    Keying((if t.out.Some? then [own] else []) + r.keys, r.key)
  }

  lemma {:induction false} OnSame(at: nat, k: Key, s: State, bytes: seq<byte>, on: seq<bool>, split: bool)
    requires |on| == |bytes| && forall i :: 0 <= i < |on| ==> on[i] == split
    ensures CutsOn(s, bytes, on) == Cuts(s, bytes, split)
    ensures KeyedOn(at, k, s, bytes, on) == Keyed(at, k, s, bytes, split)
    decreases |bytes|
  {
    hide Step, KeyStep;
    if bytes != [] {
      var t, own := Step(s, bytes[0], split), KeyStep(at, k, s, bytes[0], split);
      OnSame(at + 1, if t.out.Some? && t.out.value.last then NO_KEY else own, t.state, bytes[1..], on[1..], split);
    }
  }

  lemma OnFirst(at: nat, k: Key, s: State, bytes: seq<byte>, on: seq<bool>, more: seq<byte>, on': seq<bool>)
    requires |on| == |bytes| > 0 && |on'| == |more|
    ensures var t, own := Step(s, bytes[0], on[0]), KeyStep(at, k, s, bytes[0], on[0]);
            var b, o := bytes[1..] + more, on[1..] + on';
            var r := CutsOn(t.state, b, o);
            var q := KeyedOn(at + 1, if t.out.Some? && t.out.value.last then NO_KEY else own, t.state, b, o);
            && CutsOn(s, bytes + more, on + on') == Cutting(Out(t.out) + r.pieces, r.state)
            && KeyedOn(at, k, s, bytes + more, on + on')
               == Keying((if t.out.Some? then [own] else []) + q.keys, q.key)
  {
    hide Step, KeyStep;
    assert (bytes + more)[1..] == bytes[1..] + more && (on + on')[1..] == on[1..] + on';
  }

  /** However the stream is cut. */
  lemma {:induction false} OnAppend(at: nat, k: Key, s: State, a: seq<byte>, on: seq<bool>, b: seq<byte>,
                                    on': seq<bool>)
    requires |on| == |a| && |on'| == |b|
    ensures var r, q := CutsOn(s, a, on), KeyedOn(at, k, s, a, on);
            var r', q' := CutsOn(r.state, b, on'), KeyedOn(at + |a|, q.key, r.state, b, on');
            && CutsOn(s, a + b, on + on') == Cutting(r.pieces + r'.pieces, r'.state)
            && KeyedOn(at, k, s, a + b, on + on') == Keying(q.keys + q'.keys, q'.key)
    decreases |a|
  {
    hide Step, KeyStep, CutsOn, KeyedOn;
    if a == [] {
      NothingOn(at, k, s);
      assert a + b == b && on + on' == on';
      PiecesNone(CutsOn(s, b, on').pieces);
      KeysAssoc([], [], KeyedOn(at, k, s, b, on').keys);
    } else {
      var t, own := Step(s, a[0], on[0]), KeyStep(at, k, s, a[0], on[0]);
      var next := if t.out.Some? && t.out.value.last then NO_KEY else own;
      OnAppend(at + 1, next, t.state, a[1..], on[1..], b, on');
      OnFirst(at, k, s, a, on, b, on');
      OnFirst(at, k, s, a, on, [], []);
      assert a + [] == a && on + [] == on && a[1..] + [] == a[1..] && on[1..] + [] == on[1..];
      var r, q := CutsOn(t.state, a[1..], on[1..]), KeyedOn(at + 1, next, t.state, a[1..], on[1..]);
      PiecesAssoc(Out(t.out), r.pieces, CutsOn(r.state, b, on').pieces);
      KeysAssoc(if t.out.Some? then [own] else [], q.keys, KeyedOn(at + |a|, q.key, r.state, b, on').keys);
    }
  }

  lemma NothingOn(at: nat, k: Key, s: State)
    ensures CutsOn(s, [], []) == Cutting([], s) && KeyedOn(at, k, s, [], []) == Keying([], k)
  {
  }

  /** One more read. */
  lemma OneRead(at: nat, k: Key, s: State, input: seq<Read>, i: nat)
    requires i < |input|
    ensures var x, on := Stream(input[..i]), On(input[..i]);
            var r, q := CutsOn(s, x, on), KeyedOn(at, k, s, x, on);
            var r', q' := Cuts(r.state, input[i].bytes, input[i].split),
                          Keyed(at + |x|, q.key, r.state, input[i].bytes, input[i].split);
            && Stream(input[..i + 1]) == x + input[i].bytes
            && CutsOn(s, Stream(input[..i + 1]), On(input[..i + 1])) == Cutting(r.pieces + r'.pieces, r'.state)
            && KeyedOn(at, k, s, Stream(input[..i + 1]), On(input[..i + 1])) == Keying(q.keys + q'.keys, q'.key)
  {
    hide CutsOn, KeyedOn, Cuts, Keyed;
    assert input[..i + 1][..i] == input[..i];
    var x, on, last := Stream(input[..i]), On(input[..i]), input[i];
    OnAppend(at, k, s, x, on, last.bytes, Same(|last.bytes|, last.split));
    OnSame(at + |x|, KeyedOn(at, k, s, x, on).key, CutsOn(s, x, on).state, last.bytes,
           Same(|last.bytes|, last.split), last.split);
  }

  lemma NoReads(at: nat, k: Key, s: State, input: seq<Read>)
    ensures Stream(input[..0]) == [] && On(input[..0]) == []
    ensures CutsOn(s, [], []) == Cutting([], s) && KeyedOn(at, k, s, [], []) == Keying([], k)
  {
    NothingOn(at, k, s);
  }

  /** After an error there is nothing more. */
  lemma {:induction false} FailsFor(s: State, input: seq<Read>, i: nat)
    requires i <= |input| && CutsOn(s, Stream(input[..i]), On(input[..i])).state.phase in {Failed, OtherCommand}
    ensures CutsOn(s, Stream(input), On(input)).state.phase in {Failed, OtherCommand}
    decreases |input| - i
  {
    hide CutsOn;
    if i == |input| {
      assert input[..i] == input;
    } else {
      OneRead(0, NO_KEY, s, input, i);
      Absorbed(CutsOn(s, Stream(input[..i]), On(input[..i])).state, input[i].bytes, input[i].split);
      FailsFor(s, input, i + 1);
    }
  }

  /** Keys are in what has been read. */
  lemma {:induction false} OnSeen(at: nat, k: Key, s: State, bytes: seq<byte>, on: seq<bool>)
    requires |on| == |bytes| && SeenBefore(k, at)
    ensures var q := KeyedOn(at, k, s, bytes, on);
            SeenBefore(q.key, at + |bytes|) && forall i :: 0 <= i < |q.keys| ==> SeenBefore(q.keys[i], at + |bytes|)
    decreases |bytes|
  {
    hide Step;
    if bytes != [] {
      var t, own := Step(s, bytes[0], on[0]), KeyStep(at, k, s, bytes[0], on[0]);
      var next := if t.out.Some? && t.out.value.last then NO_KEY else own;
      OnSeen(at + 1, next, t.state, bytes[1..], on[1..]);
    }
  }

  // ----- a command of which only some arguments were read with splitting on -------------------------------

  /** Keys that are pieces, of a command that goes on. */
  function FirstKeys(c: Cmd, n: int, args: Argv): (ps: seq<Piece>)
    ensures |ps| == |args| && forall i :: 0 <= i < |args| ==> ps[i] == Piece(PrintArg(args[i]), false, c, n)
  {
    seq(|args|, i requires 0 <= i < |args| => Piece(PrintArg(args[i]), false, c, n))
  }

  /** The first keys, with splitting on: the last of them stays in the request. */
  lemma {:induction false} SomeSplit(c: Cmd, n: int, i: int, args: Argv, req: seq<byte>)
    requires args != [] && i + |args| < n && ModeOf(c) == MultiKey && i >= 1
    ensures Cuts(State(ArgTag(c, n, i), req), PrintArgs(args), true)
         == Cutting(FirstKeys(c, n, args), State(ArgTag(c, n, i + |args|), PrintArg(args[|args| - 1])))
    decreases |args|
  {
    hide Cuts, PrintArg;
    RequestFormat.ReadArg(c, n, i, args[0], req, true);
    RequestFormat.PrintOne(args);
    CutsAppend(State(ArgTag(c, n, i), req), PrintArg(args[0]), PrintArgs(args[1..]), true);
    assert [] + PrintArg(args[0]) == PrintArg(args[0]);
    if |args| > 1 {
      SomeSplit(c, n, i + 1, args[1..], PrintArg(args[0]));
      assert FirstKeys(c, n, args) == [Piece(PrintArg(args[0]), false, c, n)] + FirstKeys(c, n, args[1..]);
    } else {
      assert args[1..] == [];
      NothingOn(0, NO_KEY, State(ArgTag(c, n, i + 1), PrintArg(args[0])));
      NoMore(c, n, State(ArgTag(c, n, i + 1), PrintArg(args[0])), true);
      assert FirstKeys(c, n, args) == [Piece(PrintArg(args[0]), false, c, n)];
    }
  }

  /** The first keys, with splitting off: all stay in the request. */
  lemma {:induction false} SomeWhole(c: Cmd, n: int, i: int, args: Argv, req: seq<byte>)
    requires args != [] && i + |args| < n && ModeOf(c) == MultiKey && i >= 1
    ensures Cuts(State(ArgTag(c, n, i), req), PrintArgs(args), false)
         == Cutting([], State(ArgTag(c, n, i + |args|), req + PrintArgs(args)))
    decreases |args|
  {
    hide Cuts, PrintArg;
    RequestFormat.ReadArg(c, n, i, args[0], req, false);
    RequestFormat.PrintOne(args);
    CutsAppend(State(ArgTag(c, n, i), req), PrintArg(args[0]), PrintArgs(args[1..]), false);
    var next := req + PrintArg(args[0]);
    if |args| > 1 {
      SomeWhole(c, n, i + 1, args[1..], next);
      assert next + PrintArgs(args[1..]) == req + (PrintArg(args[0]) + PrintArgs(args[1..]));
    } else {
      assert args[1..] == [];
      NoMore(c, n, State(ArgTag(c, n, i + 1), next), false);
      assert PrintArg(args[0]) + [] == PrintArg(args[0]);
    }
  }

  /** What comes out when k arguments are read with `split` and the others with the opposite. */
  function Switched(c: Cmd, name: seq<byte>, args: Argv, k: nat, split: bool): seq<Piece>
    requires 0 < k < |args| && ModeOf(c) == MultiKey
  {
    var n := |args| + 1;
    if split then FirstKeys(c, n, args[..k]) + [Piece(PrintArg(args[k - 1]) + PrintArgs(args[k..]), true, c, n)]
    else Pieces(c, n, args[k..])
  }

  /** The bytes up to argument k. */
  function UpTo(name: seq<byte>, args: Argv, k: nat): seq<byte>
    requires k <= |args|
  {
    Header(STAR, |args| + 1) + PrintArg(name) + PrintArgs(args[..k])
  }

  lemma SwitchMeans(name: seq<byte>, c: Cmd, n: int, args: Argv, k: nat)
    requires ModeOf(c) == MultiKey && 0 < k < |args| && n == |args| + 1
    ensures UpTo(name, args, k) == Header(STAR, |args| + 1) + PrintArg(name) + PrintArgs(args[..k])
    ensures forall j :: 1 + k <= j ==> IsSplit(c, n, j, true) && !IsSplit(c, n, j, false)
    ensures && Switched(c, name, args, k, true) == FirstKeys(c, n, args[..k])
                 + [Piece(PrintArg(args[k - 1]) + PrintArgs(args[k..]), true, c, n)]
            && Switched(c, name, args, k, false) == Pieces(c, n, args[k..])
  {
  }

  lemma SwitchedOff(name: seq<byte>, c: Cmd, args: Argv, k: nat)
    requires Lower(name) == Name(c) && GoodCount(c, |args| + 1) && ModeOf(c) == MultiKey && 0 < k < |args|
    ensures var r := Cuts(START, UpTo(name, args, k), true);
            var q := Cuts(r.state, PrintArgs(args[k..]), false);
            r.pieces + q.pieces == Switched(c, name, args, k, true) && q.state == START
  {
    hide *;
    var n, h := |args| + 1, Header(STAR, |args| + 1) + PrintArg(name);
    SwitchMeans(name, c, n, args, k);
    ReadHead(name, c, n, true);
    CutsAppend(START, h, PrintArgs(args[..k]), true);
    SomeSplit(c, n, 1, args[..k], h);
    assert args[..k][|args[..k]| - 1] == args[k - 1];
    PiecesNone(FirstKeys(c, n, args[..k]));
    ReadWhole(c, n, 1 + k, args[k..], PrintArg(args[k - 1]), false);
  }

  lemma SwitchedOn(name: seq<byte>, c: Cmd, args: Argv, k: nat)
    requires Lower(name) == Name(c) && GoodCount(c, |args| + 1) && ModeOf(c) == MultiKey && 0 < k < |args|
    ensures var r := Cuts(START, UpTo(name, args, k), false);
            var q := Cuts(r.state, PrintArgs(args[k..]), true);
            r.pieces + q.pieces == Switched(c, name, args, k, false) && q.state == START
  {
    hide *;
    var n, h := |args| + 1, Header(STAR, |args| + 1) + PrintArg(name);
    SwitchMeans(name, c, n, args, k);
    ReadHead(name, c, n, false);
    CutsAppend(START, h, PrintArgs(args[..k]), false);
    SomeWhole(c, n, 1, args[..k], h);
    PiecesNone([]);
    ReadKeys(c, n, 1 + k, args[k..], h + PrintArgs(args[..k]), true);
    PiecesNone(Pieces(c, n, args[k..]));
  }

  /** Nothing is decided before the first argument, and all is after the last. */
  lemma SwitchedOutside(name: seq<byte>, c: Cmd, args: Argv, split: bool)
    requires Lower(name) == Name(c) && GoodCount(c, |args| + 1) && args != []
    ensures var r := Cuts(START, UpTo(name, args, 0), split);
            var q := Cuts(r.state, PrintArgs(args), !split);
            Cutting(r.pieces + q.pieces, q.state) == Cuts(START, PrintCommand([name] + args), !split)
    ensures Cuts(START, UpTo(name, args, |args|), split) == Cuts(START, PrintCommand([name] + args), split)
  {
    hide Cuts, PrintArg, Name, Header, PrintArgs;
    var n, h := |args| + 1, Header(STAR, |args| + 1) + PrintArg(name);
    ReadHead(name, c, n, split);
    ReadHead(name, c, n, !split);
    PrintNamed(name, args);
    CutsAppend(START, h, PrintArgs(args), !split);
    assert args[..0] == [] && args[..|args|] == args;
    NoMore(c, n, START, split);
    assert h + [] == h;
  }
}
