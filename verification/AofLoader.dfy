/** loadAppendOnlyFile with aof-load-truncated: what a log replays to, and what
    is left of the file and of the dataset when the log was cut at any byte. */
module AofLoader {
  import opened Bytes
  import opened AofFormat

  /** Command execution, as far as it is not modelled: the commands the server
      knows (by lower-case name) and what one does to the dataset of database db. */
  datatype Semantics<!D> = Semantics(
    empty: D,
    dbnum: nat,
    known: seq<byte> -> bool,
    exec: (D, nat, Argv) -> D)

  /** The fake client: the database it selected, and the dataset it works on. */
  datatype Client<D> = Client(db: nat, data: D)

  predicate IsNamed(argv: Argv, name: string) { argv != [] && Lower(argv[0]) == Ascii(name) }

  function Start<D>(sem: Semantics<D>): Client<D> { Client(0, sem.empty) }

  /** The index a SELECT argument denotes; string2ll takes no padded numeral. */
  function SelectedDb(arg: seq<byte>, dbnum: nat): (db: int)
    ensures -1 <= db < dbnum
  {
    if arg != [] && AllDigits(arg) && Digits(DigitsValue(arg)) == arg && DigitsValue(arg) < dbnum
    then DigitsValue(arg) else -1
  }

  /** One command outside MULTI. MULTI and EXEC by themselves change no data. */
  function Exec<D>(sem: Semantics<D>, c: Client<D>, argv: Argv): Client<D>
  {
    if IsNamed(argv, "multi") || IsNamed(argv, "exec") then c
    else if IsNamed(argv, "select") then
      var db := if |argv| >= 2 then SelectedDb(argv[1], sem.dbnum) else -1;
      if db >= 0 then c.(db := db) else c
    else c.(data := sem.exec(c.data, c.db, argv))
  }

  function ExecAll<D>(sem: Semantics<D>, c: Client<D>, log: seq<Argv>): Client<D>
    decreases |log|
  {
    if log == [] then c else ExecAll(sem, Exec(sem, c, log[0]), log[1..])
  }

  lemma {:induction false} ExecAllAppend<D>(sem: Semantics<D>, c: Client<D>, a: seq<Argv>, b: seq<Argv>)
    ensures ExecAll(sem, c, a + b) == ExecAll(sem, ExecAll(sem, c, a), b)
    decreases |a|
  {
    if a == [] {
      assert a + b == b;
    } else {
      assert (a + b)[1..] == a[1..] + b;
      ExecAllAppend(sem, Exec(sem, c, a[0]), a[1..], b);
    }
  }

  // ----- the loader's loop, as a function ---------------------------------------

  /** The loader's variables between two commands. */
  datatype Loading<D> = Loading(
    client: Client<D>, multi: bool, queue: seq<Argv>, validUpTo: nat, beforeMulti: nat)

  datatype Outcome<D> =
    | EmptyFile
    | Loaded(client: Client<D>, size: nat, truncated: bool)
    | FormatExit | UnknownCommandExit | UnexpectedEofExit | UnrecoverableExit
    | RdbPreamble | LengthExit

  function Begin<D>(sem: Semantics<D>): Loading<D> { Loading(Start(sem), false, [], 0, 0) }

  function RunCommand<D>(sem: Semantics<D>, l: Loading<D>, argv: Argv): Loading<D>
  {
    if l.multi && !IsNamed(argv, "exec") then l.(queue := l.queue + [argv])
    else if l.multi then l.(client := ExecAll(sem, l.client, l.queue), multi := false, queue := [])
    else if IsNamed(argv, "multi") then l.(multi := true)
    else l.(client := Exec(sem, l.client, argv))
  }

  /** One turn of the loop on a complete, known command that ends at offset `end`. */
  function LoadCommand<D>(sem: Semantics<D>, trunc: bool, l: Loading<D>, argv: Argv, end: nat): (r: Loading<D>)
    ensures r.validUpTo == if trunc then end else l.validUpTo
    ensures r.beforeMulti == if IsNamed(argv, "multi") then l.validUpTo else l.beforeMulti
  {
    var l0 := if IsNamed(argv, "multi") then l.(beforeMulti := l.validUpTo) else l;
    var l1 := RunCommand(sem, l0, argv);
    if trunc then l1.(validUpTo := end) else l1
  }

  function UnexpectedEof<D>(trunc: bool, l: Loading<D>, upTo: nat): Outcome<D>
  {
    if trunc then Loaded(l.client, upTo, true) else UnexpectedEofExit
  }

  function LoadFrom<D>(sem: Semantics<D>, trunc: bool, s: seq<byte>, offset: nat, l: Loading<D>): Outcome<D>
    decreases |s|
  {
    match ReadCommand(s)
    case AtEof =>
      if l.multi then UnexpectedEof(trunc, l, l.beforeMulti) else Loaded(l.client, offset, false)
    case CommandStop(ReadError(eof)) =>
      if eof then UnexpectedEof(trunc, l, l.validUpTo) else UnrecoverableExit
    case CommandStop(FormatError) => FormatExit
    case CommandStop(LengthOutOfRange) => LengthExit
    case Command(argv, rest) =>
      if !sem.known(Lower(argv[0])) then UnknownCommandExit else
      var end := offset + |s| - |rest|;
      LoadFrom(sem, trunc, rest, end, LoadCommand(sem, trunc, l, argv, end))
  }

  function Load<D>(sem: Semantics<D>, trunc: bool, file: seq<byte>): Outcome<D>
  {
    if file == [] then EmptyFile
    else if |file| >= 5 && file[..5] == Ascii("REDIS") then RdbPreamble
    else LoadFrom(sem, trunc, file, 0, Begin(sem))
  }

  // ----- loading what was printed, cut anywhere ---------------------------------

  ghost predicate Loadable<D>(sem: Semantics<D>, argv: Argv)
  {
    Storable(argv) && sem.known(Lower(argv[0]))
  }

  ghost predicate LoadableLog<D>(sem: Semantics<D>, log: seq<Argv>)
  {
    forall i :: 0 <= i < |log| ==> Loadable(sem, log[i])
  }

  /** The loop over complete commands. */
  function LoadLog<D>(sem: Semantics<D>, l: Loading<D>, log: seq<Argv>): Loading<D>
    decreases |log|
  {
    if log == [] then l
    else LoadLog(sem, LoadCommand(sem, true, l, log[0], l.validUpTo + |PrintCommand(log[0])|), log[1..])
  }

  /** p is what a cut left of the command after the complete ones. */
  ghost predicate CutOf(p: seq<byte>, next: Argv)
  {
    Storable(next) && p <= PrintCommand(next) && |p| < |PrintCommand(next)|
  }

  /** What the loop returns when, after the complete commands, p is left. */
  function Ending<D>(m: Loading<D>, p: seq<byte>): Outcome<D>
  {
    if p != [] then Loaded(m.client, m.validUpTo, true)
    else if m.multi then Loaded(m.client, m.beforeMulti, true)
    else Loaded(m.client, m.validUpTo, false)
  }

  lemma LoadFromRead<D>(sem: Semantics<D>, s: seq<byte>, argv: Argv, rest: seq<byte>, offset: nat, l: Loading<D>)
    requires ReadCommand(s) == Command(argv, rest) && sem.known(Lower(argv[0]))
    ensures var end := offset + |s| - |rest|;
            LoadFrom(sem, true, s, offset, l) == LoadFrom(sem, true, rest, end, LoadCommand(sem, true, l, argv, end))
  {
    hide ReadCommand, LoadCommand, UnexpectedEof, Lower;
  }

  lemma LoadFromPrinted<D>(sem: Semantics<D>, argv: Argv, rest: seq<byte>, l: Loading<D>)
    requires Loadable(sem, argv)
    ensures var end := l.validUpTo + |PrintCommand(argv)|;
            LoadFrom(sem, true, PrintCommand(argv) + rest, l.validUpTo, l)
            == LoadFrom(sem, true, rest, end, LoadCommand(sem, true, l, argv, end))
  {
    hide LoadFrom, ReadCommand, PrintCommand, LoadCommand;
    ReadPrintedCommand(argv, rest);
    LoadFromRead(sem, PrintCommand(argv) + rest, argv, rest, l.validUpTo, l);
  }

  lemma LoadFromCut<D>(sem: Semantics<D>, p: seq<byte>, next: Argv, l: Loading<D>)
    requires p == [] || CutOf(p, next)
    ensures LoadFrom(sem, true, p, l.validUpTo, l) == Ending(l, p)
  {
    if p != [] { ReadCutCommand(next, p); }
  }

  lemma PrintAllStep(log: seq<Argv>, p: seq<byte>)
    ensures log == [] ==> PrintAll(log) + p == p
    ensures log != [] ==> PrintAll(log) + p == PrintCommand(log[0]) + (PrintAll(log[1..]) + p)
  {
    hide PrintCommand;
  }

  lemma {:induction false} LoadPrinted<D>(sem: Semantics<D>, log: seq<Argv>, p: seq<byte>, next: Argv, l: Loading<D>)
    requires LoadableLog(sem, log) && (p == [] || CutOf(p, next))
    ensures LoadFrom(sem, true, PrintAll(log) + p, l.validUpTo, l) == Ending(LoadLog(sem, l, log), p)
    decreases |log|
  {
    hide LoadFrom, LoadCommand, PrintCommand, PrintAll, Ending, CutOf;
    if log == [] {
      PrintAllStep(log, p);
      LoadFromCut(sem, p, next, l);
    } else {
      var rest := PrintAll(log[1..]) + p;
      PrintAllStep(log, p);
      assert Loadable(sem, log[0]);
      LoadFromPrinted(sem, log[0], rest, l);
      LoadPrinted(sem, log[1..], p, next,
                  LoadCommand(sem, true, l, log[0], l.validUpTo + |PrintCommand(log[0])|));
    }
  }

  /** How many commands of the log a cut leaves complete, */
  function WholeCommands(log: seq<Argv>, cut: nat): (k: nat)
    ensures k <= |log|
  {
    if log == [] || cut < |PrintCommand(log[0])| then 0
    else 1 + WholeCommands(log[1..], cut - |PrintCommand(log[0])|)
  }

  /** and what it leaves of the next one. */
  function Remainder(log: seq<Argv>, cut: nat): seq<byte>
  {
    if log == [] then []
    else if cut < |PrintCommand(log[0])| then PrintCommand(log[0])[..cut]
    else Remainder(log[1..], cut - |PrintCommand(log[0])|)
  }

  function Size(log: seq<Argv>): nat { |PrintAll(log)| }

  lemma SizeOfPrefix(log: seq<Argv>, k: nat)
    requires 1 <= k <= |log|
    ensures Size(log[..k]) == |PrintCommand(log[0])| + Size(log[1..][..k - 1])
    ensures PrintAll(log[..k]) == PrintCommand(log[0]) + PrintAll(log[1..][..k - 1])
  {
    assert log[..k][0] == log[0] && log[..k][1..] == log[1..][..k - 1];
  }

  lemma {:induction false} CutSplits(log: seq<Argv>, cut: nat)
    requires cut <= Size(log)
    ensures var k := WholeCommands(log, cut);
            PrintAll(log)[..cut] == PrintAll(log[..k]) + Remainder(log, cut)
  {
    hide PrintCommand;
    if log == [] {
    } else if cut < |PrintCommand(log[0])| {
      assert log[..0] == [];
      assert PrintAll(log)[..cut] == PrintCommand(log[0])[..cut];
    } else {
      var n := |PrintCommand(log[0])|;
      CutSplits(log[1..], cut - n);
      SizeOfPrefix(log, WholeCommands(log, cut));
      assert PrintAll(log)[..cut] == PrintCommand(log[0]) + PrintAll(log[1..])[..cut - n];
    }
  }

  /** WholeCommands counts the longest prefix of complete commands in the cut. */
  lemma {:induction false} CutIsMaximal(log: seq<Argv>, cut: nat)
    requires cut <= Size(log)
    ensures var k := WholeCommands(log, cut);
            && cut == Size(log[..k]) + |Remainder(log, cut)|
            && (k == |log| ==> cut == Size(log))
            && (k < |log| ==> cut < Size(log[..k + 1]) && Remainder(log, cut) < PrintCommand(log[k]))
  {
    hide PrintCommand;
    var k := WholeCommands(log, cut);
    if log == [] {
    } else if cut < |PrintCommand(log[0])| {
      assert log[..0] == [];
      SizeOfPrefix(log, 1);
      assert log[1..][..0] == [];
    } else {
      CutIsMaximal(log[1..], cut - |PrintCommand(log[0])|);
      SizeOfPrefix(log, k);
      if k < |log| { SizeOfPrefix(log, k + 1); } else { assert log[1..][..k - 1] == log[1..]; }
    }
  }

  lemma NotAPreamble(log: seq<Argv>, cut: nat)
    requires log != [] && 0 < cut <= |PrintAll(log)|
    ensures PrintAll(log)[..cut] != [] && PrintAll(log)[0] == STAR
    ensures cut >= 5 ==> PrintAll(log)[..cut][..5] != Ascii("REDIS")
  {
    assert Ascii("REDIS")[0] == 82;
    if cut >= 5 { assert PrintAll(log)[..cut][..5][0] == STAR; }
  }

  /** Every cut of a printed log, transactions included, in terms of LoadLog. */
  lemma LoadCut<D>(sem: Semantics<D>, log: seq<Argv>, cut: nat)
    requires LoadableLog(sem, log) && 0 < cut <= Size(log)
    ensures Load(sem, true, PrintAll(log)[..cut])
         == Ending(LoadLog(sem, Begin(sem), log[..WholeCommands(log, cut)]), Remainder(log, cut))
  {
    hide LoadFrom, PrintCommand, LoadLog;
    var k := WholeCommands(log, cut);
    CutSplits(log, cut);
    CutIsMaximal(log, cut);
    NotAPreamble(log, cut);
    var next := if k < |log| then log[k] else log[0];
    assert Loadable(sem, next);
    if k == |log| { assert log[..k] == log; }
    LoadPrinted(sem, log[..k], Remainder(log, cut), next, Begin(sem));
  }

  // ----- transactions -------------------------------------------------------------

  /** The index of the MULTI that is open after the log, or -1. */
  function OpenMulti(log: seq<Argv>): (open: int)
    ensures -1 <= open < |log|
  {
    if log == [] then -1 else
    var init, last := log[..|log| - 1], log[|log| - 1];
    if IsNamed(last, "exec") then -1
    else if IsNamed(last, "multi") && OpenMulti(init) == -1 then |init|
    else OpenMulti(init)
  }

  /** A log as propagation writes it: MULTI never inside MULTI. An EXEC may stand alone. */
  ghost predicate Transactional(log: seq<Argv>)
  {
    forall i :: 0 <= i < |log| && IsNamed(log[i], "multi") ==> OpenMulti(log[..i]) == -1
  }

  lemma NamesDiffer(argv: Argv)
    ensures !(IsNamed(argv, "multi") && IsNamed(argv, "exec"))
  {
    assert |Ascii("multi")| == 5 && |Ascii("exec")| == 4;
  }

  /** The commands that have taken effect: all, or those before the open MULTI. */
  function Committed(log: seq<Argv>): seq<Argv>
  {
    if OpenMulti(log) == -1 then log else log[..OpenMulti(log)]
  }

  lemma {:induction false} LoadLogSnoc<D>(sem: Semantics<D>, l: Loading<D>, log: seq<Argv>, argv: Argv)
    ensures var m := LoadLog(sem, l, log);
            LoadLog(sem, l, log + [argv]) == LoadCommand(sem, true, m, argv, m.validUpTo + |PrintCommand(argv)|)
    decreases |log|
  {
    hide LoadCommand, PrintCommand;
    if log == [] {
      var l' := LoadCommand(sem, true, l, argv, l.validUpTo + |PrintCommand(argv)|);
      assert log + [argv] == [argv] && LoadLog(sem, l', []) == l';
    } else {
      assert (log + [argv])[1..] == log[1..] + [argv];
      LoadLogSnoc(sem, LoadCommand(sem, true, l, log[0], l.validUpTo + |PrintCommand(log[0])|), log[1..], argv);
    }
  }

  ghost predicate LoadedLog<D>(sem: Semantics<D>, log: seq<Argv>, m: Loading<D>)
  {
    var open := OpenMulti(log);
    && m.client == ExecAll(sem, Start(sem), Committed(log))
    && m.validUpTo == |PrintAll(log)|
    && (m.multi <==> open != -1)
    && (if open == -1 then m.queue == [] else m.queue == log[open + 1..] && m.beforeMulti == |PrintAll(log[..open])|)
  }

  /** The loader's variables after the complete commands of a transactional log. */
  lemma {:induction false} LoadTransactional<D>(sem: Semantics<D>, log: seq<Argv>)
    requires Transactional(log)
    ensures LoadedLog(sem, log, LoadLog(sem, Begin(sem), log))
    decreases |log|
  {
    hide PrintCommand, LoadCommand, IsNamed;
    if log != [] {
      var init, last := log[..|log| - 1], log[|log| - 1];
      assert log == init + [last];
      TransactionalPrefix(log, |init|);
      LoadTransactional(sem, init);
      LoadLogSnoc(sem, Begin(sem), init, last);
      LoadTransactionalStep(sem, init, last, LoadLog(sem, Begin(sem), init));
    }
  }

  lemma ExecAllSnoc<D>(sem: Semantics<D>, c: Client<D>, log: seq<Argv>, argv: Argv)
    ensures ExecAll(sem, c, log + [argv]) == Exec(sem, ExecAll(sem, c, log), argv)
  {
    hide Exec;
    ExecAllAppend(sem, c, log, [argv]);
    var d := ExecAll(sem, c, log);
    assert ExecAll(sem, d, [argv]) == ExecAll(sem, Exec(sem, d, argv), []);
  }

  /** MULTI ... EXEC as a whole does what the commands in between do. */
  lemma ExecTransaction<D>(sem: Semantics<D>, init: seq<Argv>, last: Argv)
    requires OpenMulti(init) != -1 && IsNamed(last, "exec")
    ensures ExecAll(sem, Start(sem), init + [last])
         == ExecAll(sem, ExecAll(sem, Start(sem), init[..OpenMulti(init)]), init[OpenMulti(init) + 1..])
  {
    hide IsNamed;
    var open := OpenMulti(init);
    var head := init[..open];
    OpenIsMulti(init);
    ExecAllSnoc(sem, Start(sem), init, last);
    ExecAllSnoc(sem, Start(sem), head, init[open]);
    ExecAllAppend(sem, Start(sem), head + [init[open]], init[open + 1..]);
    assert init == head + [init[open]] + init[open + 1..];
  }

  lemma OpenSnoc(init: seq<Argv>, last: Argv)
    ensures OpenMulti(init + [last]) ==
      if IsNamed(last, "exec") then -1
      else if IsNamed(last, "multi") && OpenMulti(init) == -1 then |init|
      else OpenMulti(init)
  {
    var log := init + [last];
    assert log[..|log| - 1] == init && log[|log| - 1] == last;
  }

  lemma LoadTransactionalStep<D>(sem: Semantics<D>, init: seq<Argv>, last: Argv, m: Loading<D>)
    requires Transactional(init + [last])
    requires LoadedLog(sem, init, m)
    ensures LoadedLog(sem, init + [last], LoadCommand(sem, true, m, last, m.validUpTo + |PrintCommand(last)|))
  {
    hide PrintCommand, PrintAll, ExecAll, Exec, IsNamed, OpenMulti;
    var log := init + [last];
    var open := OpenMulti(init);
    assert log[..|init|] == init && log[|init|] == last;
    OpenSnoc(init, last);
    PrintAllSnoc(init, last);
    NamesDiffer(last);
    ExecAllSnoc(sem, Start(sem), init, last);
    if open == -1 {
      assert log[|init| + 1..] == [];
    } else if IsNamed(last, "exec") {
      ExecTransaction(sem, init, last);
    } else {
      assert log[..open] == init[..open];
      assert log[open + 1..] == init[open + 1..] + [last];
    }
  }

  lemma {:induction false} OpenIsMulti(log: seq<Argv>)
    ensures OpenMulti(log) != -1 ==> IsNamed(log[OpenMulti(log)], "multi")
    decreases |log|
  {
    if log != [] { OpenIsMulti(log[..|log| - 1]); }
  }

  lemma TransactionalPrefix(log: seq<Argv>, k: nat)
    requires Transactional(log) && k <= |log|
    ensures Transactional(log[..k])
  {
    forall i | 0 <= i < k ensures log[..k][..i] == log[..i] { }
  }

  lemma CommittedSize(log: seq<Argv>)
    ensures Size(Committed(log)) <= Size(log)
    ensures Size(Committed(log)) == Size(log) <==> OpenMulti(log) == -1
  {
    var open := OpenMulti(log);
    if open != -1 {
      assert log == log[..open] + log[open..];
      PrintAllAppend(log[..open], log[open..]);
      assert PrintAll(log[open..]) == PrintCommand(log[open..][0]) + PrintAll(log[open..][1..]);
    }
  }

  /** Crash-cut recovery with transactions. The dataset is always that of the
      committed prefix; the file is cut at the end of that prefix unless the cut
      fell strictly inside a command of an open transaction. */
  lemma CutTransactions<D>(sem: Semantics<D>, log: seq<Argv>, cut: nat)
    requires LoadableLog(sem, log) && Transactional(log) && 0 < cut <= Size(log)
    ensures var whole := log[..WholeCommands(log, cut)];
            var o := Load(sem, true, PrintAll(log)[..cut]);
            && o.Loaded?
            && o.client == ExecAll(sem, Start(sem), Committed(whole))
            && (o.size == Size(Committed(whole)) <==> OpenMulti(whole) == -1 || cut == Size(whole))
            && (o.size == Size(Committed(whole)) || o.size == Size(whole))
            && o.truncated == (o.size < cut)
  {
    var k := WholeCommands(log, cut);
    var whole := log[..k];
    CutIsMaximal(log, cut);
    LoadCut(sem, log, cut);
    TransactionalPrefix(log, k);
    LoadTransactional(sem, whole);
    CommittedSize(whole);
  }

  /** Crash-cut recovery of a log without MULTI: exactly the longest prefix of
      complete commands is executed, and the file is cut at its length. */
  lemma CutRecovery<D>(sem: Semantics<D>, log: seq<Argv>, cut: nat)
    requires LoadableLog(sem, log) && 0 < cut <= Size(log)
    requires forall i :: 0 <= i < |log| ==> !IsNamed(log[i], "multi") && !IsNamed(log[i], "exec")
    ensures var k := WholeCommands(log, cut);
            && Size(log[..k]) <= cut && (k < |log| ==> cut < Size(log[..k + 1]))
            && Load(sem, true, PrintAll(log)[..cut]) ==
                 Loaded(ExecAll(sem, Start(sem), log[..k]), Size(log[..k]), Size(log[..k]) < cut)
  {
    var k := WholeCommands(log, cut);
    NoMultiNoOpen(log[..k]);
    CutIsMaximal(log, cut);
    CutTransactions(sem, log, cut);
  }

  lemma {:induction false} NoMultiNoOpen(log: seq<Argv>)
    requires forall i :: 0 <= i < |log| ==> !IsNamed(log[i], "multi")
    ensures OpenMulti(log) == -1
    decreases |log|
  {
    if log != [] { NoMultiNoOpen(log[..|log| - 1]); }
  }

  /** The whole log, uncut, replays to its own effect and keeps its size. */
  lemma LoadWhole<D>(sem: Semantics<D>, log: seq<Argv>)
    requires LoadableLog(sem, log) && log != [] && Transactional(log) && OpenMulti(log) == -1
    ensures Load(sem, true, PrintAll(log)) == Loaded(ExecAll(sem, Start(sem), log), Size(log), false)
  {
    var n := Size(log);
    assert PrintAll(log)[..n] == PrintAll(log);
    WholeIsWhole(log);
    assert log[..|log|] == log;
    CutTransactions(sem, log, n);
  }

  lemma {:induction false} WholeIsWhole(log: seq<Argv>)
    ensures WholeCommands(log, Size(log)) == |log|
  {
    if log != [] { WholeIsWhole(log[1..]); }
  }

  /** The complete commands at the start of a file, and the bytes behind them. */
  function Complete(s: seq<byte>): (r: (seq<Argv>, seq<byte>))
    decreases |s|
  {
    match ReadCommand(s)
    case Command(argv, rest) => var r := Complete(rest); ([argv] + r.0, r.1)
    case _ => ([], s)
  }

  /** The file ends inside a command of a transaction whose MULTI is in the file. */
  predicate Torn(s: seq<byte>) { OpenMulti(Complete(s).0) != -1 && Complete(s).1 != [] }

  lemma {:induction false} CompleteOfPrinted(log: seq<Argv>, cut: nat)
    requires (forall i :: 0 <= i < |log| ==> Storable(log[i])) && cut <= Size(log)
    ensures Complete(PrintAll(log)[..cut]) == (log[..WholeCommands(log, cut)], Remainder(log, cut))
  {
    hide ReadCommand, PrintCommand;
    if log == [] {
      NothingToRead();
    } else {
      var n := |PrintCommand(log[0])|;
      if cut < n {
        assert PrintAll(log)[..cut] == PrintCommand(log[0])[..cut];
        if cut == 0 { NothingToRead(); } else { ReadCutCommand(log[0], PrintCommand(log[0])[..cut]); }
      } else {
        CompleteOfPrinted(log[1..], cut - n);
        var rest := PrintAll(log[1..])[..cut - n];
        assert PrintAll(log)[..cut] == PrintCommand(log[0]) + rest;
        ReadPrintedCommand(log[0], rest);
        assert [log[0]] + log[1..][..WholeCommands(log[1..], cut - n)] == log[..WholeCommands(log, cut)];
      }
    }
  }

  lemma NothingToRead()
    ensures ReadCommand([]) == AtEof
  {
  }

  // ----- what a cut inside a transaction costs later -------------------------------

  ghost predicate PlainLog(log: seq<Argv>)
  {
    forall i :: 0 <= i < |log| ==> !IsNamed(log[i], "multi") && !IsNamed(log[i], "exec")
  }

  lemma {:induction false} AppendPlain(log: seq<Argv>, more: seq<Argv>)
    requires Transactional(log) && PlainLog(more)
    ensures Transactional(log + more) && OpenMulti(log + more) == OpenMulti(log)
    decreases |more|
  {
    hide IsNamed, OpenMulti;
    if more == [] {
      assert log + more == log;
    } else {
      var init, last := more[..|more| - 1], more[|more| - 1];
      AppendPlain(log, init);
      assert log + more == log + init + [last];
      OpenSnoc(log + init, last);
      forall i | 0 <= i < |log + more|
        ensures (log + more)[..i] == if i <= |log + init| then (log + init)[..i] else log + more { }
    }
  }

  /** The commands written after a recovery survive the next restart exactly when
      the recovered file does not end inside a transaction. A file that does (the
      cut fell inside a command of an open transaction) makes the next load queue
      them behind the dangling MULTI and drop them with it. */
  lemma WritesAfterRecovery<D>(sem: Semantics<D>, kept: seq<Argv>, more: seq<Argv>)
    requires LoadableLog(sem, kept) && Transactional(kept)
    requires LoadableLog(sem, more) && PlainLog(more) && more != []
    ensures var o := Load(sem, true, PrintAll(kept) + PrintAll(more));
            && o.Loaded?
            && o.client == (if OpenMulti(kept) == -1 then ExecAll(sem, ExecAll(sem, Start(sem), kept), more)
                            else ExecAll(sem, Start(sem), Committed(kept)))
            && o.size == (if OpenMulti(kept) == -1 then Size(kept) + Size(more) else Size(Committed(kept)))
  {
    hide Load, LoadFrom, PrintCommand, IsNamed, OpenMulti;
    var log := kept + more;
    AppendPlain(kept, more);
    PrintAllAppend(kept, more);
    WholeIsWhole(log);
    assert log[..|log|] == log && PrintAll(log)[..Size(log)] == PrintAll(log);
    assert PrintAll(more) == PrintCommand(more[0]) + PrintAll(more[1..]);
    CutTransactions(sem, log, Size(log));
    if OpenMulti(kept) == -1 {
      ExecAllAppend(sem, Start(sem), kept, more);
    } else {
      assert log[..OpenMulti(kept)] == kept[..OpenMulti(kept)];
    }
  }

  /** Such a cut exists: MULTI, then one byte of the next command. Nothing has been
      executed, yet the MULTI stays in the file. */
  lemma {:induction false} CutInsideTransaction<D>(sem: Semantics<D>, m: Argv, argv: Argv)
    requires Loadable(sem, m) && Loadable(sem, argv) && PlainLog([argv]) && IsNamed(m, "multi")
    ensures var log := [m, argv];
            && 0 < Size([m]) < Size(log)
            && Load(sem, true, PrintAll(log)[..Size([m])]) == Loaded(Start(sem), 0, true)
            && Load(sem, true, PrintAll(log)[..Size([m]) + 1]) == Loaded(Start(sem), Size([m]), true)
  {
    hide Load, LoadFrom, PrintCommand, IsNamed;
    var log := [m, argv];
    OneMulti(m, argv);
    assert PrintAll([m]) == PrintCommand(m) + PrintAll([]);
    assert PrintAll([argv]) == PrintCommand(argv) + PrintAll([]);
    assert log[1..] == [argv] && log[..1] == [m] && PrintAll(log) == PrintCommand(m) + PrintAll([argv]);
    assert Committed([m]) == [];
    CutTransactions(sem, log, Size([m]));
    CutTransactions(sem, log, Size([m]) + 1);
  }

  lemma OneMulti(m: Argv, argv: Argv)
    requires IsNamed(m, "multi") && PlainLog([argv])
    ensures OpenMulti([m]) == 0 && Transactional([m, argv])
  {
    var log := [m, argv];
    NamesDiffer(m);
    assert log[..0] == [] && log[..1] == [m] && [argv][0] == argv;
    assert [m][..0] == [] && OpenMulti([]) == -1;
  }

  // ----- what the loader refuses ---------------------------------------------------------

  /** The same but for offsets, which aof-load-truncated alone keeps. */
  ghost predicate Alike<D>(l: Loading<D>, m: Loading<D>)
  {
    l.client == m.client && l.multi == m.multi && l.queue == m.queue
  }

  /** Behind the printed commands of a log the loader goes on with what comes there, whether
      aof-load-truncated is set or not. */
  lemma {:induction false} LoadBehind<D>(sem: Semantics<D>, trunc: bool, log: seq<Argv>, tail: seq<byte>, offset: nat,
                                         l: Loading<D>, lt: Loading<D>)
    returns (m: Loading<D>)
    requires LoadableLog(sem, log) && Alike(l, lt)
    ensures Alike(m, LoadLog(sem, lt, log))
    ensures LoadFrom(sem, trunc, PrintAll(log) + tail, offset, l)
         == LoadFrom(sem, trunc, tail, offset + Size(log), m)
    decreases |log|
  {
    hide ReadCommand, PrintCommand, LoadFrom, LoadCommand;
    PrintAllStep(log, tail);
    if log == [] {
      m := l;
    } else {
      var argv, rest := log[0], PrintAll(log[1..]) + tail;
      assert Loadable(sem, argv);
      ReadPrintedCommand(argv, rest);
      var end := offset + |PrintCommand(argv)|;
      ReadOn(sem, trunc, PrintCommand(argv) + rest, argv, rest, offset, l);
      var endT := lt.validUpTo + |PrintCommand(argv)|;
      StillAlike(sem, trunc, l, lt, argv, end, endT);
      m := LoadBehind(sem, trunc, log[1..], tail, end, LoadCommand(sem, trunc, l, argv, end),
                      LoadCommand(sem, true, lt, argv, endT));
    }
  }

  lemma ReadOn<D>(sem: Semantics<D>, trunc: bool, s: seq<byte>, argv: Argv, rest: seq<byte>, offset: nat, l: Loading<D>)
    requires ReadCommand(s) == Command(argv, rest) && sem.known(Lower(argv[0]))
    ensures var end := offset + |s| - |rest|;
            LoadFrom(sem, trunc, s, offset, l) == LoadFrom(sem, trunc, rest, end, LoadCommand(sem, trunc, l, argv, end))
  {
    hide ReadCommand, LoadCommand, UnexpectedEof, Lower;
  }

  lemma StillAlike<D>(sem: Semantics<D>, trunc: bool, l: Loading<D>, lt: Loading<D>, argv: Argv, end: nat, endT: nat)
    requires Alike(l, lt)
    ensures Alike(LoadCommand(sem, trunc, l, argv, end), LoadCommand(sem, true, lt, argv, endT))
  {
    hide IsNamed;
  }

  /** The bytes s are no command, whatever comes behind: they do not begin with '*'; or the count is
      below one; or where an argument should begin, there is something else than '$'. */
  ghost predicate Malformed(s: seq<byte>)
  {
    || (s != [] && s[0] != STAR)
    || (exists n: int, more: seq<byte> :: -0x8000_0000 <= n < 1 && s == [STAR] + Decimal(n) + CRLF + more)
    || (exists n: nat, args: Argv, more: seq<byte> :: StrayArgument(s, n, args, more))
  }

  /** n arguments are announced, and behind fewer there is something else. */
  ghost predicate StrayArgument(s: seq<byte>, n: nat, args: Argv, more: seq<byte>)
  {
    && |args| < n <= 0x7fff_ffff && StorableArgs(args) && more != [] && more[0] != DOLLAR
    && s == Header(STAR, n) + (PrintArgs(args) + more)
  }

  lemma {:induction false} StrayArgs(args: Argv, more: seq<byte>, n: nat)
    requires |args| < n && StorableArgs(args) && more != [] && more[0] != DOLLAR
    ensures ReadArgs(PrintArgs(args) + more, n) == ArgsStop(FormatError)
    decreases |args|
  {
    hide ReadArg, PrintArg;
    if args == [] {
      assert PrintArgs(args) + more == more;
      StrayArg(more);
    } else {
      var rest := PrintArgs(args[1..]) + more;
      assert PrintArgs(args) + more == PrintArg(args[0]) + rest;
      ReadPrintedArg(args[0], rest);
      StrayArgs(args[1..], more, n - 1);
    }
  }

  lemma StrayArg(s: seq<byte>)
    requires s != [] && s[0] != DOLLAR
    ensures ReadArg(s) == ArgStop(FormatError)
  {
  }

  lemma {:induction false} LowCount(n: int, more: seq<byte>)
    requires -0x8000_0000 <= n < 1
    ensures ReadCommand([STAR] + Decimal(n) + CRLF + more) == CommandStop(FormatError)
  {
    var d := Digits(if n < 0 then -n else n);
    var h := [STAR] + Decimal(n) + [CR];
    DigitsOfWord(if n < 0 then -n else n);
    assert [STAR] + Decimal(n) + CRLF + more == h + [LF] + more;
    LineOf(h, more, LINE_LIMIT);
    var line := (h + [LF] + more)[..|h| + 1];
    assert line[1..] == Decimal(n) + CRLF;
    assert line[1] == Decimal(n)[0];
    StrtolSigned(n, CRLF);
  }

  lemma {:induction false} StrtolSigned(n: int, tail: seq<byte>)
    requires tail != [] && !IsDigit(tail[0])
    ensures Strtol(Decimal(n) + tail) == n
  {
    hide DigitsValue, DigitRun, Digits;
    var d := Digits(if n < 0 then -n else n);
    DigitsRoundTrip(if n < 0 then -n else n);
    DigitRunOf(d, tail);
    if n < 0 {
      assert (Decimal(n) + tail)[1..] == d + tail;
    } else {
      StrtolOfDigits(d, tail);
    }
  }

  lemma MalformedStops(s: seq<byte>)
    requires Malformed(s)
    ensures ReadCommand(s) == CommandStop(FormatError)
  {
    if s[0] != STAR {
      return;
    }
    hide ReadCommand, Header, Decimal, PrintArgs;
    if exists n: int, more: seq<byte> :: -0x8000_0000 <= n < 1 && s == [STAR] + Decimal(n) + CRLF + more {
      var n: int, more: seq<byte> :| -0x8000_0000 <= n < 1 && s == [STAR] + Decimal(n) + CRLF + more;
      LowCount(n, more);
    } else {
      var n: nat, args: Argv, more: seq<byte> :| StrayArgument(s, n, args, more);
      StrayStops(s, n, args, more);
    }
  }

  lemma StrayStops(s: seq<byte>, n: nat, args: Argv, more: seq<byte>)
    requires StrayArgument(s, n, args, more)
    ensures ReadCommand(s) == CommandStop(FormatError)
  {
    hide PrintArgs, ReadArgs;
    HeaderLine(STAR, n, PrintArgs(args) + more);
    StrayArgs(args, more, n);
    DigitsOfWord(n);
    assert Header(STAR, n)[1] == Digits(n)[0];
  }

  /** Complete commands followed by something that is no command: the server exits, whether or not
      aof-load-truncated is set. Likewise for a command it does not know. */
  lemma LoadRefuses<D>(sem: Semantics<D>, trunc: bool, log: seq<Argv>, tail: seq<byte>)
    requires LoadableLog(sem, log) && tail != [] && (log == [] && |tail| >= 5 ==> tail[..5] != Ascii("REDIS"))
    ensures Malformed(tail) ==> Load(sem, trunc, PrintAll(log) + tail) == FormatExit
    ensures forall argv: Argv, rest: seq<byte> ::
              Storable(argv) && !sem.known(Lower(argv[0])) && tail == PrintCommand(argv) + rest ==>
                Load(sem, trunc, PrintAll(log) + tail) == UnknownCommandExit
  {
    hide ReadCommand, PrintCommand, LoadFrom, Malformed, Lower;
    BehindNoPreamble(log, tail);
    var m := LoadBehind(sem, trunc, log, tail, 0, Begin(sem), Begin(sem));
    if Malformed(tail) {
      MalformedStops(tail);
      Refused(sem, trunc, tail, Size(log), m);
    }
    forall argv: Argv, rest: seq<byte> |
      Storable(argv) && !sem.known(Lower(argv[0])) && tail == PrintCommand(argv) + rest
      ensures Load(sem, trunc, PrintAll(log) + tail) == UnknownCommandExit
    {
      ReadPrintedCommand(argv, rest);
      Unknown(sem, trunc, tail, argv, rest, Size(log), m);
    }
  }

  lemma Refused<D>(sem: Semantics<D>, trunc: bool, s: seq<byte>, offset: nat, l: Loading<D>)
    requires ReadCommand(s) == CommandStop(FormatError)
    ensures LoadFrom(sem, trunc, s, offset, l) == FormatExit
  {
    hide ReadCommand;
  }

  lemma Unknown<D>(sem: Semantics<D>, trunc: bool, s: seq<byte>, argv: Argv, rest: seq<byte>, offset: nat,
                   l: Loading<D>)
    requires ReadCommand(s) == Command(argv, rest) && !sem.known(Lower(argv[0]))
    ensures LoadFrom(sem, trunc, s, offset, l) == UnknownCommandExit
  {
    hide ReadCommand, Lower;
  }

  lemma BehindNoPreamble(log: seq<Argv>, tail: seq<byte>)
    requires tail != [] && (log == [] && |tail| >= 5 ==> tail[..5] != Ascii("REDIS"))
    ensures var s := PrintAll(log) + tail; s != [] && !(|s| >= 5 && s[..5] == Ascii("REDIS"))
  {
    var s := PrintAll(log) + tail;
    assert Ascii("REDIS")[0] == 82;
    if log == [] {
      assert s == tail;
    } else {
      assert s[0] == STAR;
      if |s| >= 5 { assert s[..5][0] == STAR; }
    }
  }

  /** Without aof-load-truncated the log must be whole: cut anywhere, it loads iff the cut is between
      two commands and no MULTI is open there; otherwise the server exits. */
  lemma LoadStrict<D>(sem: Semantics<D>, log: seq<Argv>, cut: nat)
    requires LoadableLog(sem, log) && Transactional(log) && 0 < cut <= Size(log)
    ensures var whole := log[..WholeCommands(log, cut)];
            Load(sem, false, PrintAll(log)[..cut])
            == if cut == Size(whole) && OpenMulti(whole) == -1 then Loaded(ExecAll(sem, Start(sem), whole), cut, false)
               else UnexpectedEofExit
  {
    hide *;
    var k := WholeCommands(log, cut);
    var whole, p := log[..k], Remainder(log, cut);
    SomethingLogged(log);
    CutSplits(log, cut);
    CutIsMaximal(log, cut);
    NotAPreamble(log, cut);
    LoadIs(sem, false, PrintAll(log)[..cut]);
    LoadablePrefix(sem, log, k);
    var m := LoadBehind(sem, false, whole, p, 0, Begin(sem), Begin(sem)) by { SameIsAlike(Begin(sem)); }
    TransactionalPrefix(log, k);
    LoadTransactional(sem, whole);
    LoadedIs(sem, whole, m);
    if p == [] {
      StrictEnd(sem, cut, m);
    } else {
      if k == |log| { assert whole == log; }
      ReadCutCommand(log[k], p);
      StrictCut(sem, p, |PrintAll(whole)|, m);
    }
    SizeIs(whole);
  }

  lemma SomethingLogged(log: seq<Argv>)
    ensures Size(log) == |PrintAll(log)| && (Size(log) > 0 ==> log != [])
  {
  }

  lemma SizeIs(log: seq<Argv>)
    ensures Size(log) == |PrintAll(log)|
  {
  }

  lemma SameIsAlike<D>(l: Loading<D>)
    ensures Alike(l, l)
  {
  }

  lemma LoadIs<D>(sem: Semantics<D>, trunc: bool, s: seq<byte>)
    requires s != [] && (|s| >= 5 ==> s[..5] != Ascii("REDIS"))
    ensures Load(sem, trunc, s) == LoadFrom(sem, trunc, s, 0, Begin(sem))
  {
    hide LoadFrom;
  }

  lemma LoadablePrefix<D>(sem: Semantics<D>, log: seq<Argv>, k: nat)
    requires LoadableLog(sem, log) && k <= |log|
    ensures LoadableLog(sem, log[..k]) && (k < |log| ==> Storable(log[k]))
  {
    if k < |log| { assert Loadable(sem, log[k]); }
  }

  lemma LoadedIs<D>(sem: Semantics<D>, log: seq<Argv>, m: Loading<D>)
    requires LoadedLog(sem, log, LoadLog(sem, Begin(sem), log)) && Alike(m, LoadLog(sem, Begin(sem), log))
    ensures m.multi <==> OpenMulti(log) != -1
    ensures !m.multi ==> m.client == ExecAll(sem, Start(sem), log)
  {
    hide LoadLog, ExecAll, OpenMulti;
  }

  lemma StrictEnd<D>(sem: Semantics<D>, offset: nat, l: Loading<D>)
    ensures LoadFrom(sem, false, [], offset, l)
         == if l.multi then UnexpectedEofExit else Loaded(l.client, offset, false)
  {
  }

  lemma StrictCut<D>(sem: Semantics<D>, p: seq<byte>, offset: nat, l: Loading<D>)
    requires ReadCommand(p) == CommandStop(ReadError(true))
    ensures LoadFrom(sem, false, p, offset, l) == UnexpectedEofExit
  {
    hide ReadCommand;
  }

  // ----- the loader itself ------------------------------------------------------------

  function Prepend(args: Argv, r: ArgsResult): ArgsResult
  {
    if r.Args? then Args(args + r.args, r.rest) else r
  }

  /** The log file: its content, and the read position of the loader's FILE. */
  class LogFile {
    var data: seq<byte>
    var pos: nat

    constructor (data: seq<byte>)
      ensures this.data == data && pos == 0
    {
      this.data := data;
      pos := 0;
    }

    ghost predicate Valid() reads this { pos <= |data| }

    ghost function Rest(): seq<byte>
      requires Valid()
      reads this
    {
      data[pos..]
    }

    /** fgets(buf, 128, fp); an empty line stands for NULL at end of file. */
    method Fgets() returns (line: seq<byte>, feof: bool)
      requires Valid()
      modifies this`pos
      ensures Valid()
      ensures line == old(Rest())[..LineLength(old(Rest()), LINE_LIMIT)]
      ensures Rest() == old(Rest())[|line|..]
      ensures feof <==> pos == |data| && (line == [] || line[|line| - 1] != LF) && |line| < LINE_LIMIT
    {
      hide LineLength;
      var s := data[pos..];
      var n, newline := 0, false;
      while n < |s| && n < LINE_LIMIT && !newline
        invariant pos == old(pos) && data == old(data) && n <= |s| && n <= LINE_LIMIT
        invariant newline <==> n > 0 && s[n - 1] == LF
        invariant LineLength(s, LINE_LIMIT) == n + (if newline then 0 else LineLength(s[n..], LINE_LIMIT - n))
      {
        LineStep(s, n, LINE_LIMIT);
        newline := s[n] == LF;
        n := n + 1;
      }
      line := s[..n];
      pos := pos + n;
      assert data[pos..] == s[n..];
      assert LineLength(s, LINE_LIMIT) == n;
      feof := n == |s| && !newline && n < LINE_LIMIT;
    }

    /** fread of one item of `len` bytes: all of it, or the stream is at its end. */
    method Fread(len: nat) returns (item: seq<byte>, ok: bool)
      requires Valid()
      modifies this`pos
      ensures Valid()
      ensures ok <==> len <= |old(Rest())|
      ensures ok ==> item == old(Rest())[..len] && Rest() == old(Rest())[len..]
    {
      ok := len <= |data| - pos;
      if ok {
        item := data[pos..pos + len];
        pos := pos + len;
      } else {
        item := [];
        pos := |data|;
      }
    }

    /** One turn of the inner loop: the "$len" line, the body, the CRLF. */
    method ReadArgument() returns (r: ArgResult)
      requires Valid()
      modifies this`pos
      ensures Valid() && r == ReadArg(old(Rest()))
      ensures r.Arg? ==> Rest() == r.rest
    {
      hide Strtol, LineLength;
      var line, feof := Fgets();
      if line == [] {
        return ArgStop(ReadError(true));
      }
      if line[0] != DOLLAR {
        return ArgStop(FormatError);
      }
      var len := Strtol(line[1..]);
      if len < 0 {
        return ArgStop(LengthOutOfRange);
      }
      var arg, ok := [], true;
      if len != 0 {
        arg, ok := Fread(len);
      }
      if !ok {
        return ArgStop(ReadError(true));
      }
      var crlf;
      crlf, ok := Fread(2);
      if !ok {
        return ArgStop(ReadError(true));
      }
      r := Arg(arg, data[pos..]);
    }

    /** The inner loop of loadAppendOnlyFile. */
    method ReadArguments(argc: nat) returns (r: ArgsResult)
      requires Valid()
      modifies this`pos
      ensures Valid() && r == ReadArgs(old(Rest()), argc)
      ensures r.Args? ==> Rest() == r.rest
    {
      hide ReadArg;
      ghost var s := Rest();
      var argv: Argv := [];
      var j := 0;
      while j < argc
        invariant 0 <= j <= argc && Valid()
        invariant ReadArgs(s, argc) == Prepend(argv, ReadArgs(Rest(), argc - j))
      {
        ghost var before := Rest();
        var a := ReadArgument();
        match a
        case ArgStop(stop) =>
          return ArgsStop(stop);
        case Arg(arg, rest) =>
          PrependStep(argv, arg, ReadArgs(rest, argc - j - 1));
          argv := argv + [arg];
          j := j + 1;
      }
      assert argv + [] == argv;
      r := Args(argv, data[pos..]);
    }

    /** The body of the outer loop up to the command lookup. */
    method ReadOneCommand() returns (r: CommandResult)
      requires Valid()
      modifies this`pos
      ensures Valid() && r == ReadCommand(old(Rest()))
      ensures r.Command? ==> Rest() == r.rest
      ensures r.AtEof? ==> pos == old(pos) == |data|
    {
      hide ReadArgs;
      var line, feof := Fgets();
      if line == [] {
        return AtEof;
      }
      if line[0] != STAR {
        return CommandStop(FormatError);
      }
      if |line| == 1 || line[1] == NUL {
        return CommandStop(ReadError(feof));
      }
      var argc := Strtol(line[1..]);
      if argc < 1 {
        return CommandStop(FormatError);
      }
      var args := ReadArguments(argc);
      match args
      case ArgsStop(stop) =>
        r := CommandStop(stop);
      case Args(argv, rest) =>
        r := Command(argv, rest);
    }

    /** loadAppendOnlyFile, from the open file to C_OK, C_ERR or one of its exits. */
    method LoadAppendOnlyFile<D>(sem: Semantics<D>, trunc: bool) returns (o: Outcome<D>)
      requires pos == 0
      modifies this
      ensures o == Load(sem, trunc, old(data))
      ensures o.Loaded? ==> o.size <= |old(data)|
      ensures data == if o.Loaded? then old(data)[..o.size] else old(data)
      ensures !trunc ==> data == old(data)
    {
      if |data| == 0 {
        return EmptyFile;
      }
      if |data| >= 5 && data[..5] == Ascii("REDIS") {
        return RdbPreamble;
      }
      o := LoadCommands(sem, trunc);
      if o.Loaded? {
        data := data[..o.size];
      }
    }

    method LoadCommands<D>(sem: Semantics<D>, trunc: bool) returns (o: Outcome<D>)
      requires pos == 0
      modifies this`pos
      ensures o == LoadFrom(sem, trunc, data, 0, Begin(sem))
      ensures o.Loaded? ==> o.size <= |data|
      ensures o.Loaded? && !trunc ==> o.size == |data|
    {
      hide ReadCommand, LoadCommand;
      var l := Begin(sem);
      assert data[0..] == data;
      while true
        invariant Valid()
        invariant l.validUpTo <= pos && l.beforeMulti <= pos
        invariant LoadFrom(sem, trunc, Rest(), pos, l) == LoadFrom(sem, trunc, data, 0, Begin(sem))
        decreases |data| - pos
      {
        var r := ReadOneCommand();
        match r
        case AtEof =>
          if l.multi {
            return UnexpectedEof(trunc, l, l.beforeMulti);
          }
          return Loaded(l.client, pos, false);
        case CommandStop(ReadError(eof)) =>
          return if eof then UnexpectedEof(trunc, l, l.validUpTo) else UnrecoverableExit;
        case CommandStop(FormatError) =>
          return FormatExit;
        case CommandStop(LengthOutOfRange) =>
          return LengthExit;
        case Command(argv, rest) =>
          if !sem.known(Lower(argv[0])) {
            return UnknownCommandExit;
          }
          l := LoadCommand(sem, trunc, l, argv, pos);
      }
    }
  }

  lemma LineStep(s: seq<byte>, k: nat, limit: nat)
    requires k < |s| && k < limit
    ensures LineLength(s[k..], limit - k) ==
      if s[k] == LF then 1 else 1 + LineLength(s[k + 1..], limit - k - 1)
  {
    assert s[k..][1..] == s[k + 1..];
  }

  lemma PrependStep(argv: Argv, arg: seq<byte>, more: ArgsResult)
    ensures Prepend(argv, Prepend([arg], more)) == Prepend(argv + [arg], more)
  {
    if more.Args? { assert argv + ([arg] + more.args) == argv + [arg] + more.args; }
  }
}
