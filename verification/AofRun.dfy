/** The append-only file while the server runs: feeding, flushing, the background
    rewrite with its pipes and handshake, the file switch, crashes and restarts,
    as a machine whose steps interleave in any order. */
module AofRun {
  import opened Bytes
  import opened AofFormat
  import opened AofLoader
  import opened Options

  // ----- what feedAppendOnlyFile writes for a command -----------------------------

  /** The absolute time catAppendOnlyExpireAtCommand computes. */
  function When(seconds: bool, relative: bool, arg: seq<byte>, now: int): int
  {
    Strtol(arg) * (if seconds then 1000 else 1) + (if relative then now else 0)
  }

  function PexpireAt(key: seq<byte>, when: int): Argv { [Ascii("PEXPIREAT"), key, Decimal(when)] }

  predicate IsOption(arg: seq<byte>, name: string) { Lower(UpToNul(arg)) == Ascii(name) }

  /** The value after the last "name" among argv[3..upTo], as the scan leaves it. */
  function OptionValue(argv: Argv, name: string, upTo: nat): Option<seq<byte>>
    requires upTo <= |argv|
  {
    if upTo <= 3 then None
    else if IsOption(argv[upTo - 1], name) && upTo < |argv| then Some(argv[upTo])
    else OptionValue(argv, name, upTo - 1)
  }

  /** The option at place j has a value behind it. */
  predicate OptionAt(argv: Argv, name: string, j: int) { 3 <= j && j + 1 < |argv| && IsOption(argv[j], name) }

  ghost predicate LastOption(argv: Argv, name: string, j: int, upTo: nat)
  {
    j < upTo && OptionAt(argv, name, j) && forall i :: j < i < upTo ==> !OptionAt(argv, name, i)
  }

  /** That is the value behind the last such option that has one. */
  lemma {:induction false} OptionValueIsLast(argv: Argv, name: string, upTo: nat)
    requires upTo <= |argv|
    ensures OptionValue(argv, name, upTo) == None <==> forall j :: 0 <= j < upTo ==> !OptionAt(argv, name, j)
    ensures forall j :: LastOption(argv, name, j, upTo) ==>
              OptionValue(argv, name, upTo) == Some(argv[j + 1])
    decreases upTo
  {
    hide IsOption;
    if upTo > 3 {
      OptionValueIsLast(argv, name, upTo - 1);
      assert OptionAt(argv, name, upTo - 1) <==> IsOption(argv[upTo - 1], name) && upTo < |argv|;
      forall j | LastOption(argv, name, j, upTo) ensures OptionValue(argv, name, upTo) == Some(argv[j + 1]) {
        if j < upTo - 1 { assert LastOption(argv, name, j, upTo - 1) && !OptionAt(argv, name, upTo - 1); }
      }
    }
  }

  function ExpireOf(key: seq<byte>, seconds: bool, arg: Option<seq<byte>>, now: int): seq<Argv>
  {
    if arg.Some? then [PexpireAt(key, When(seconds, true, arg.value, now))] else []
  }

  /** The commands one command is logged as: relative expiry times become absolute. */
  function Translate(argv: Argv, now: int): seq<Argv>
  {
    var n := |argv|;
    if n >= 3 && IsNamed(argv, "expire") then [PexpireAt(argv[1], When(true, true, argv[2], now))]
    else if n >= 3 && IsNamed(argv, "pexpire") then [PexpireAt(argv[1], When(false, true, argv[2], now))]
    else if n >= 3 && IsNamed(argv, "expireat") then [PexpireAt(argv[1], When(true, false, argv[2], now))]
    else if n >= 4 && IsNamed(argv, "setex") then
      [[Ascii("SET"), argv[1], argv[3]], PexpireAt(argv[1], When(true, true, argv[2], now))]
    else if n >= 4 && IsNamed(argv, "psetex") then
      [[Ascii("SET"), argv[1], argv[3]], PexpireAt(argv[1], When(false, true, argv[2], now))]
    else if n > 3 && IsNamed(argv, "set") then
      [argv[..3]] + ExpireOf(argv[1], true, OptionValue(argv, "ex", n), now)
                  + ExpireOf(argv[1], false, OptionValue(argv, "px", n), now)
    else [argv]
  }

  function SelectCommand(db: nat): Argv { [Ascii("SELECT"), Digits(db)] }

  /** A SELECT first, unless the last logged command ran on the same database. */
  function FeedCommands(sel: int, db: nat, argv: Argv, now: int): seq<Argv>
  {
    (if db != sel then [SelectCommand(db)] else []) + Translate(argv, now)
  }

  function FeedBytes(sel: int, db: nat, argv: Argv, now: int): seq<byte>
  {
    PrintAll(FeedCommands(sel, db, argv, now))
  }

  /** Command execution on the live server, at clock `now`, next to the replay of
      logged commands, which reads no clock. */
  datatype Dataset<!D> = Dataset(sem: Semantics<D>, live: (D, nat, Argv, int) -> D)

  ghost predicate LogCommand<D>(sem: Semantics<D>, argv: Argv)
  {
    Loadable(sem, argv) && !IsNamed(argv, "multi") && !IsNamed(argv, "exec")
  }

  ghost predicate LogCommands<D>(sem: Semantics<D>, log: seq<Argv>)
  {
    forall i :: 0 <= i < |log| ==> LogCommand(sem, log[i])
  }

  /** A log that can be loaded; unless `open`, with every transaction in it complete. */
  ghost predicate GoodLog<D>(sem: Semantics<D>, log: seq<Argv>, open: bool)
  {
    LoadableLog(sem, log) && Transactional(log) && (open || OpenMulti(log) == -1)
  }

  ghost predicate Selectable<D>(ds: Dataset<D>, db: nat) { db < ds.sem.dbnum && db < 0x1_0000_0000_0000_0000 }

  /** A command that may be propagated: what it is logged as can be stored and loaded.
      SELECT itself is never propagated. */
  ghost predicate Feedable<D>(ds: Dataset<D>, db: nat, argv: Argv, now: int)
  {
    !IsNamed(argv, "select") && Selectable(ds, db) && LogCommands(ds.sem, Translate(argv, now))
  }

  /** Executing a propagated command has the effect of the commands it is logged as. */
  ghost predicate Lawful<D(!new)>(ds: Dataset<D>)
  {
    && ds.sem.known(Ascii("select")) && ds.sem.known(Ascii("multi")) && ds.sem.known(Ascii("exec"))
    && forall d: D, db: nat, argv: Argv, now: int :: Feedable(ds, db, argv, now) ==>
         ExecAll(ds.sem, Client(db, d), Translate(argv, now)) == Client(db, ds.live(d, db, argv, now))
  }

  // ----- bytes that replay to a dataset ---------------------------------------------

  ghost predicate Replays<D>(sem: Semantics<D>, bytes: seq<byte>, c: Client<D>, open: bool)
  {
    exists log: seq<Argv> :: GoodLog(sem, log, open) && bytes == PrintAll(log) && ExecAll(sem, Start(sem), log) == c
  }

  /** bytes replays to `data`, and ends on database `sel` unless that is -1. With `open` a
      MULTI may still wait for its EXEC: what is queued behind it counts as executed. */
  ghost predicate Tracks<D>(sem: Semantics<D>, bytes: seq<byte>, data: D, sel: int, open: bool)
  {
    exists db: nat :: Replays(sem, bytes, Client(db, data), open) && (sel == -1 || sel == db)
  }

  lemma TracksForget<D>(sem: Semantics<D>, bytes: seq<byte>, data: D, sel: int, open: bool)
    requires Tracks(sem, bytes, data, sel, open)
    ensures Tracks(sem, bytes, data, -1, open)
  {
    var db: nat :| Replays(sem, bytes, Client(db, data), open) && (sel == -1 || sel == db);
    assert Replays(sem, bytes, Client(db, data), open);
  }

  lemma TracksOpen<D>(sem: Semantics<D>, bytes: seq<byte>, data: D, sel: int, open: bool)
    requires Tracks(sem, bytes, data, sel, false)
    ensures Tracks(sem, bytes, data, sel, open)
  {
    hide OpenMulti, PrintAll, ExecAll;
    var db: nat :| Replays(sem, bytes, Client(db, data), false) && (sel == -1 || sel == db);
    var log :| GoodLog(sem, log, false) && bytes == PrintAll(log) && ExecAll(sem, Start(sem), log) == Client(db, data);
    assert GoodLog(sem, log, open);
    assert Replays(sem, bytes, Client(db, data), open);
  }

  lemma SelectNamed(db: nat)
    ensures IsNamed(SelectCommand(db), "select")
    ensures !IsNamed(SelectCommand(db), "multi") && !IsNamed(SelectCommand(db), "exec")
  {
    assert Lower(Ascii("SELECT")) == Ascii("select");
    assert |Ascii("select")| == 6 && |Ascii("multi")| == 5 && |Ascii("exec")| == 4;
  }

  lemma SelectRuns<D>(sem: Semantics<D>, c: Client<D>, db: nat)
    requires db < sem.dbnum
    ensures Exec(sem, c, SelectCommand(db)) == c.(db := db)
  {
    SelectNamed(db);
    DigitsRoundTrip(db);
    hide IsNamed;
  }

  lemma SelectLogged<D>(sem: Semantics<D>, db: nat)
    requires sem.known(Ascii("select")) && db < 0x1_0000_0000_0000_0000
    ensures LogCommand(sem, SelectCommand(db))
  {
    SelectNamed(db);
    DigitsOfWord(db);
    hide IsNamed;
    assert Lower(SelectCommand(db)[0]) == Ascii("select") by { assert Lower(Ascii("SELECT")) == Ascii("select"); }
    assert |Ascii("SELECT")| == 6;
  }

  /** Behind any such log, what is fed leaves such a log. */
  ghost predicate Extends<D>(sem: Semantics<D>, open: bool, fed: seq<Argv>, open': bool)
  {
    forall log: seq<Argv> :: GoodLog(sem, log, open) ==> GoodLog(sem, log + fed, open')
  }

  lemma LogCommandsArePlain<D>(sem: Semantics<D>, log: seq<Argv>)
    requires LogCommands(sem, log)
    ensures LoadableLog(sem, log) && PlainLog(log)
  {
    forall i | 0 <= i < |log| ensures Loadable(sem, log[i]) && !IsNamed(log[i], "multi") && !IsNamed(log[i], "exec") {
      assert LogCommand(sem, log[i]);
    }
  }

  lemma LogCommandsAreGood<D>(sem: Semantics<D>, log: seq<Argv>)
    requires LogCommands(sem, log)
    ensures GoodLog(sem, log, false)
  {
    hide Loadable, IsNamed, LogCommands;
    LogCommandsArePlain(sem, log);
    NoMultiNoOpen(log);
  }

  lemma PlainExtends<D>(sem: Semantics<D>, open: bool, fed: seq<Argv>)
    requires LogCommands(sem, fed)
    ensures Extends(sem, open, fed, open)
  {
    hide Loadable, IsNamed, OpenMulti, LogCommands, Transactional, PlainLog;
    LogCommandsArePlain(sem, fed);
    forall log: seq<Argv> | GoodLog(sem, log, open) ensures GoodLog(sem, log + fed, open) {
      AppendPlain(log, fed);
    }
  }

  /** MULTI goes behind a log without an open one, EXEC behind any. */
  lemma {:induction false} MarkerExtends<D>(sem: Semantics<D>, open: bool, marker: Argv)
    requires marker == MULTI || marker == EXEC
    requires sem.known(Ascii("multi")) && sem.known(Ascii("exec"))
    ensures marker == EXEC || !open ==> Extends(sem, open, [marker], marker == MULTI)
  {
    hide IsNamed, OpenMulti, Lower, Ascii;
    MarkersNamed();
    if marker == EXEC || !open {
      forall log: seq<Argv> | GoodLog(sem, log, open) ensures GoodLog(sem, log + [marker], marker == MULTI) {
        OpenSnoc(log, marker);
        forall i | 0 <= i < |log + [marker]| ensures (log + [marker])[..i] == log[..i] { }
      }
    }
  }

  lemma ExtendsTwice<D>(sem: Semantics<D>, open: bool, a: seq<Argv>, b: seq<Argv>, open': bool)
    requires Extends(sem, open, a, open) && Extends(sem, open, b, open')
    ensures Extends(sem, open, a + b, open')
  {
    hide GoodLog;
    forall log: seq<Argv> | GoodLog(sem, log, open) ensures GoodLog(sem, log + (a + b), open') {
      assert log + (a + b) == log + a + b;
    }
  }

  /** What is fed has this effect, whatever database came before, if `sel` does not say. */
  ghost predicate Effect<D>(sem: Semantics<D>, sel: int, data: D, fed: seq<Argv>, db': nat, data': D)
  {
    forall was: nat :: sel == -1 || sel == was ==> ExecAll(sem, Client(was, data), fed) == Client(db', data')
  }

  /** Feeding keeps a log in step with the dataset. */
  lemma {:induction false} TracksMore<D>(sem: Semantics<D>, bytes: seq<byte>, data: D, sel: int, open: bool,
                                         fed: seq<Argv>, db': nat, data': D, open': bool)
    requires Tracks(sem, bytes, data, sel, open) && Extends(sem, open, fed, open')
    requires Effect(sem, sel, data, fed, db', data')
    ensures Tracks(sem, bytes + PrintAll(fed), data', db', open')
  {
    hide GoodLog, PrintAll, ExecAll;
    var was: nat :| Replays(sem, bytes, Client(was, data), open) && (sel == -1 || sel == was);
    var log :| GoodLog(sem, log, open) && bytes == PrintAll(log) && ExecAll(sem, Start(sem), log) == Client(was, data);
    PrintAllAppend(log, fed);
    ExecAllAppend(sem, Start(sem), log, fed);
    assert Replays(sem, bytes + PrintAll(fed), Client(db', data'), open');
  }

  function Select(sel: int, db: nat): seq<Argv> { if db != sel then [SelectCommand(db)] else [] }

  lemma SelectIsLogged<D>(sem: Semantics<D>, sel: int, db: nat)
    requires sem.known(Ascii("select")) && db < 0x1_0000_0000_0000_0000
    ensures LogCommands(sem, Select(sel, db))
  {
    hide LogCommand;
    if db != sel { SelectLogged(sem, db); }
  }

  lemma {:induction false} SelectFed<D>(sem: Semantics<D>, sel: int, db: nat, was: nat, data: D)
    requires sem.known(Ascii("select")) && db < sem.dbnum && db < 0x1_0000_0000_0000_0000 && (sel == -1 || sel == was)
    ensures ExecAll(sem, Client(was, data), Select(sel, db)) == Client(db, data)
  {
    hide LogCommand, Exec;
    if db != sel {
      SelectRuns(sem, Client(was, data), db);
      OneRun(sem, Client(was, data), SelectCommand(db));
    }
  }

  lemma {:induction false} OneRun<D>(sem: Semantics<D>, c: Client<D>, argv: Argv)
    ensures ExecAll(sem, c, [argv]) == Exec(sem, c, argv)
  {
    hide Exec;
    assert [argv][1..] == [] && ExecAll(sem, Exec(sem, c, argv), []) == Exec(sem, c, argv);
  }

  lemma CommandsAppend<D>(sem: Semantics<D>, a: seq<Argv>, b: seq<Argv>)
    requires LogCommands(sem, a) && LogCommands(sem, b)
    ensures LogCommands(sem, a + b)
  {
  }

  /** One command: its SELECT, if any, and what it is logged as. */
  lemma {:induction false} FedCommand<D(!new)>(ds: Dataset<D>, data: D, sel: int, db: nat, argv: Argv, now: int)
    requires Lawful(ds) && Feedable(ds, db, argv, now)
    ensures LogCommands(ds.sem, FeedCommands(sel, db, argv, now))
    ensures Effect(ds.sem, sel, data, FeedCommands(sel, db, argv, now), db, ds.live(data, db, argv, now))
  {
    hide Translate, Exec, LogCommands, ExecAll;
    var fed, body := FeedCommands(sel, db, argv, now), Translate(argv, now);
    assert fed == Select(sel, db) + body;
    SelectIsLogged(ds.sem, sel, db);
    CommandsAppend(ds.sem, Select(sel, db), body);
    forall was: nat | sel == -1 || sel == was
      ensures ExecAll(ds.sem, Client(was, data), fed) == Client(db, ds.live(data, db, argv, now))
    {
      SelectFed(ds.sem, sel, db, was, data);
      ExecAllAppend(ds.sem, Client(was, data), Select(sel, db), body);
    }
  }

  // ----- transactions --------------------------------------------------------------------

  const MULTI: Argv := [Ascii("MULTI")]
  const EXEC: Argv := [Ascii("EXEC")]

  lemma MarkersNamed()
    ensures IsNamed(MULTI, "multi") && !IsNamed(MULTI, "exec") && IsNamed(EXEC, "exec") && !IsNamed(EXEC, "multi")
    ensures Storable(MULTI) && Storable(EXEC) && Lower(MULTI[0]) == Ascii("multi") && Lower(EXEC[0]) == Ascii("exec")
  {
    assert Lower(Ascii("MULTI")) == Ascii("multi") && Lower(Ascii("EXEC")) == Ascii("exec");
    assert |Ascii("multi")| == 5 && |Ascii("exec")| == 4;
  }

  lemma LawfulKnows<D(!new)>(ds: Dataset<D>)
    requires Lawful(ds)
    ensures ds.sem.known(Ascii("select")) && ds.sem.known(Ascii("multi")) && ds.sem.known(Ascii("exec"))
  {
  }

  /** MULTI or EXEC on a database: its SELECT, if any, and the marker, which changes nothing. */
  lemma {:induction false} FedMarker<D(!new)>(ds: Dataset<D>, data: D, sel: int, open: bool, db: nat, marker: Argv)
    requires Lawful(ds) && Selectable(ds, db) && (marker == EXEC || (marker == MULTI && !open))
    ensures Extends(ds.sem, open, Select(sel, db) + [marker], marker == MULTI)
    ensures Effect(ds.sem, sel, data, Select(sel, db) + [marker], db, data)
  {
    hide Exec, LogCommands, ExecAll, Extends, Lawful, Select;
    var sem := ds.sem;
    LawfulKnows(ds);
    SelectIsLogged(sem, sel, db);
    PlainExtends(sem, open, Select(sel, db));
    MarkerExtends(sem, open, marker);
    ExtendsTwice(sem, open, Select(sel, db), [marker], marker == MULTI);
    forall was: nat | sel == -1 || sel == was
      ensures ExecAll(sem, Client(was, data), Select(sel, db) + [marker]) == Client(db, data)
    {
      SelectFed(sem, sel, db, was, data);
      ExecAllAppend(sem, Client(was, data), Select(sel, db), [marker]);
      OneRun(sem, Client(db, data), marker);
      MarkerRuns(sem, Client(db, data), marker);
    }
  }

  lemma MarkerRuns<D>(sem: Semantics<D>, c: Client<D>, marker: Argv)
    requires marker == MULTI || marker == EXEC
    ensures Exec(sem, c, marker) == c
  {
    MarkersNamed();
    hide IsNamed;
  }

  // ----- the state -------------------------------------------------------------------

  datatype Mode = AofOff | AofOn | AofWaitRewrite
  datatype Fsync = FsyncNo | FsyncEverysec | FsyncAlways

  /** aof_state, aof_fd != -1, the file's content, aof_current_size, aof_buf,
      aof_selected_db, aof_last_write_status, aof_flush_postponed_start. */
  datatype Log = Log(
    mode: Mode, open: bool, file: seq<byte>, size: nat, buf: seq<byte>,
    sel: int, writeOk: bool, postponed: int)

  /** How far the child is: rewriting, '!' sent, '!' received, exited. */
  datatype Stage = Rewriting | Asked | Acked | ExitedOk | ExitedErr

  /** The rewriting child: its temporary file, its aof_child_diff. `snapshot` and `fed`
      are history: what it was forked to write, and the bytes fed to it since. */
  datatype Child = Child(stage: Stage, temp: seq<byte>, diff: seq<byte>, snapshot: seq<byte>, fed: seq<byte>)

  /** The child, the rdb child, aof_stop_sending_diff, the parent's diff buffer, the data
      pipe, the child's and the parent's message pipe, aof_rewrite_scheduled. */
  datatype Rewrite = Rewrite(
    child: Option<Child>, rdbChild: bool, stop: bool, pending: seq<byte>,
    dataPipe: seq<byte>, askPipe: seq<byte>, ackPipe: seq<byte>, scheduled: bool)

  const BANG: byte := 33

  /** `multi`: MULTI has been propagated, and its EXEC has not. */
  datatype State<D> = State(data: D, log: Log, rw: Rewrite, multi: bool, exited: bool)

  // ----- feeding ----------------------------------------------------------------------

  function FeedLog(l: Log, db: nat, bytes: seq<byte>): Log
  {
    l.(sel := db, buf := if l.mode == AofOn then l.buf + bytes else l.buf)
  }

  function FeedRewrite(r: Rewrite, bytes: seq<byte>): Rewrite
  {
    match r.child
    case None => r
    case Some(c) => r.(pending := r.pending + bytes, child := Some(c.(fed := c.fed + bytes)))
  }

  /** A command ran and is propagated; with the AOF off nothing is fed. */
  function Propagate<D>(ds: Dataset<D>, s: State<D>, db: nat, argv: Argv, now: int): State<D>
  {
    var data := ds.live(s.data, db, argv, now);
    if s.log.mode == AofOff then s.(data := data) else
    var bytes := FeedBytes(s.log.sel, db, argv, now);
    s.(data := data, log := FeedLog(s.log, db, bytes), rw := FeedRewrite(s.rw, bytes))
  }

  /** feedAppendOnlyFile alone. */
  function FeedOne<D>(s: State<D>, db: nat, argv: Argv, now: int): State<D>
  {
    if s.log.mode == AofOff then s else
    var bytes := FeedBytes(s.log.sel, db, argv, now);
    s.(log := FeedLog(s.log, db, bytes), rw := FeedRewrite(s.rw, bytes))
  }

  /** execCommand propagates MULTI before the first command that may write, */
  function FeedMulti<D>(s: State<D>, db: nat, now: int): State<D> { FeedOne(s, db, MULTI, now).(multi := true) }

  /** and EXEC at the end. */
  function FeedExec<D>(s: State<D>, db: nat, now: int): State<D> { FeedOne(s, db, EXEC, now).(multi := false) }

  /** Bytes are fed, and the dataset changes. */
  function Fed<D>(s: State<D>, db: nat, bytes: seq<byte>, data: D): State<D>
  {
    if s.log.mode == AofOff then s.(data := data)
    else s.(data := data, log := FeedLog(s.log, db, bytes), rw := FeedRewrite(s.rw, bytes))
  }

  lemma MarkerFed<D>(s: State<D>, db: nat, argv: Argv, now: int)
    requires argv == MULTI || argv == EXEC
    ensures FeedOne(s, db, argv, now) == Fed(s, db, PrintAll(Select(s.log.sel, db) + [argv]), s.data)
  {
    assert FeedCommands(s.log.sel, db, argv, now) == Select(s.log.sel, db) + [argv];
  }

  lemma PropagateIsFed<D>(ds: Dataset<D>, s: State<D>, db: nat, argv: Argv, now: int)
    ensures var bytes := PrintAll(FeedCommands(s.log.sel, db, argv, now));
            Propagate(ds, s, db, argv, now) == Fed(s, db, bytes, ds.live(s.data, db, argv, now)).(multi := s.multi)
  {
  }

  // ----- flushing ------------------------------------------------------------------------

  datatype WriteResult = Wrote(n: nat) | Interrupted | WriteFailed

  /** How many of len bytes aofWrite gets out: it retries short and interrupted writes. */
  function WriteTotal(len: nat, results: seq<WriteResult>): (n: nat)
    ensures n <= len
  {
    if len == 0 || results == [] then 0 else
    match results[0]
    case Wrote(k) => (if k <= len then k else len) + WriteTotal(if k <= len then len - k else 0, results[1..])
    case Interrupted => WriteTotal(len, results[1..])
    case WriteFailed => 0
  }

  function Zeros(n: nat): (z: seq<byte>) ensures |z| == n { seq(n, _ => NUL) }

  /** ftruncate: shortens, or extends with zero bytes. */
  function Truncate(file: seq<byte>, n: nat): (r: seq<byte>)
    ensures |r| == n
  {
    if n <= |file| then file[..n] else file + Zeros(n - |file|)
  }

  /** Whether flushAppendOnlyFile puts the write off for a running fsync. */
  predicate Postpones(l: Log, fsync: Fsync, force: bool, syncing: bool, now: int)
  {
    fsync == FsyncEverysec && !force && syncing && (l.postponed == 0 || now - l.postponed < 2)
  }

  /** The write: k bytes of the buffer reached the file. A short write that ftruncate
      could not undo stays counted, and leaves the buffer. */
  function WriteOut(l: Log, k: nat, truncOk: bool): Log
    requires k <= |l.buf|
  {
    var written := l.file + l.buf[..k];
    if k == |l.buf| then
      l.(postponed := 0, file := written, size := l.size + k, buf := [], writeOk := true)
    else if k > 0 && truncOk then
      l.(postponed := 0, file := Truncate(written, l.size), writeOk := false)
    else
      l.(postponed := 0, file := written, size := l.size + k, buf := l.buf[k..], writeOk := false)
  }

  /** With fsync always a short write ends the server: only the file is left. */
  function DieOut(l: Log, k: nat, truncOk: bool): Log
    requires k <= |l.buf|
  {
    var written := l.file + l.buf[..k];
    l.(postponed := 0, file := if k > 0 && truncOk then Truncate(written, l.size) else written)
  }

  predicate FlushDies(l: Log, fsync: Fsync, force: bool, syncing: bool, now: int, n: nat)
  {
    && l.buf != [] && !Postpones(l, fsync, force, syncing, now)
    && fsync == FsyncAlways && (if l.open then n else 0) < |l.buf|
  }

  function FlushLog(l: Log, fsync: Fsync, force: bool, syncing: bool, now: int, n: nat, truncOk: bool): Log
    requires n <= |l.buf|
  {
    var k := if l.open then n else 0;
    if l.buf == [] then l
    else if Postpones(l, fsync, force, syncing, now) then
      l.(postponed := if l.postponed == 0 then now else l.postponed)
    else if FlushDies(l, fsync, force, syncing, now, n) then DieOut(l, k, truncOk)
    else WriteOut(l, k, truncOk)
  }

  /** flushAppendOnlyFile when the write gets n bytes out and ftruncate may work. */
  function Flush<D>(s: State<D>, fsync: Fsync, force: bool, syncing: bool, now: int, n: nat, truncOk: bool): State<D>
    requires n <= |s.log.buf|
  {
    s.(log := FlushLog(s.log, fsync, force, syncing, now, n, truncOk),
       exited := s.exited || FlushDies(s.log, fsync, force, syncing, now, n))
  }

  // ----- the rewrite ------------------------------------------------------------------

  function KillChild(r: Rewrite): Rewrite
  {
    if r.child.None? then r
    else r.(child := None, pending := [], dataPipe := [], askPipe := [], ackPipe := [])
  }

  function NewChild(r: Rewrite, snapshot: seq<byte>): Rewrite
  {
    r.(child := Some(Child(Rewriting, snapshot, [], snapshot, [])), stop := false,
       dataPipe := [], askPipe := [], ackPipe := [], scheduled := false)
  }

  /** rewriteAppendOnlyFileBackground, when pipes and fork succeed. */
  function Fork<D>(s: State<D>, snapshot: seq<byte>): State<D>
  {
    if s.rw.child.Some? || s.rw.rdbChild then s
    else s.(log := s.log.(sel := -1), rw := NewChild(s.rw, snapshot))
  }

  /** startAppendOnly. `forkOk` says whether the rewrite could be started. */
  function StartAppendOnly<D>(s: State<D>, openOk: bool, forkOk: bool, snapshot: seq<byte>): State<D>
  {
    var waiting := s.log.(mode := AofWaitRewrite, open := true);
    if s.log.mode != AofOff || !openOk then s
    else if s.rw.rdbChild then s.(log := waiting, rw := s.rw.(scheduled := true))
    else if !forkOk then s.(rw := KillChild(s.rw))
    else s.(log := waiting.(sel := -1), rw := NewChild(KillChild(s.rw), snapshot))
  }

  /** stopAppendOnly, after its forced flush. */
  function StopAppendOnly<D>(s: State<D>): State<D>
  {
    if s.log.mode == AofOff then s
    else s.(log := s.log.(open := false, sel := -1, mode := AofOff), rw := KillChild(s.rw))
  }

  /** aofChildWriteDiffData, when the pipe takes n bytes of the buffer. */
  function SendDiff(r: Rewrite, n: nat): Rewrite
    requires n <= |r.pending|
  {
    if r.child.None? || r.stop then r
    else r.(dataPipe := r.dataPipe + r.pending[..n], pending := r.pending[n..])
  }

  /** One read of aofReadDiffFromParent. */
  function ChildRead(r: Rewrite, n: nat): Rewrite
  {
    match r.child
    case Some(c) =>
      if n <= |r.dataPipe| && (c.stage == Rewriting || c.stage == Acked) then
        r.(child := Some(c.(diff := c.diff + r.dataPipe[..n])), dataPipe := r.dataPipe[n..])
      else r
    case None => r
  }

  /** The child asks the parent to stop sending. */
  function ChildAsk(r: Rewrite): Rewrite
  {
    match r.child
    case Some(c) =>
      if c.stage == Rewriting then r.(child := Some(c.(stage := Asked)), askPipe := r.askPipe + [BANG]) else r
    case None => r
  }

  /** aofChildPipeReadable: the parent stops, and acknowledges if the pipe lets it. */
  function ParentAck(r: Rewrite, ackOk: bool): Rewrite
  {
    if r.child.None? || r.askPipe == [] then r
    else if r.askPipe[0] != BANG then r.(askPipe := r.askPipe[1..])
    else r.(askPipe := r.askPipe[1..], stop := true, ackPipe := if ackOk then r.ackPipe + [BANG] else r.ackPipe)
  }

  /** syncRead of the acknowledgement. */
  function ChildGetAck(r: Rewrite): Rewrite
  {
    match r.child
    case Some(c) =>
      if c.stage == Asked && r.ackPipe != [] then
        r.(child := Some(c.(stage := if r.ackPipe[0] == BANG then Acked else ExitedErr)), ackPipe := r.ackPipe[1..])
      else r
    case None => r
  }

  /** The final read loop has found the pipe empty; the diff goes to the file. */
  function ChildFinish(r: Rewrite): Rewrite
  {
    match r.child
    case Some(c) =>
      if c.stage == Acked && r.dataPipe == [] then
        r.(child := Some(c.(stage := ExitedOk, temp := c.temp + c.diff)))
      else r
    case None => r
  }

  /** A write error, a timeout or a signal ends the child. */
  function ChildFail(r: Rewrite): Rewrite
  {
    match r.child
    case Some(c) => if c.stage == ExitedOk then r else r.(child := Some(c.(stage := ExitedErr)))
    case None => r
  }

  function Cleanup(r: Rewrite, waiting: bool): Rewrite
  {
    r.(child := None, pending := [], dataPipe := [], askPipe := [], ackPipe := [],
       scheduled := r.scheduled || waiting)
  }

  /** The switch to the rewritten file. With the AOF off only the file is replaced. */
  function SwitchLog(l: Log, file: seq<byte>): Log
  {
    var l1 := l.(file := file, mode := if l.mode == AofWaitRewrite then AofOn else l.mode);
    if l.open then l1.(sel := -1, size := |file|, buf := []) else l1
  }

  /** backgroundRewriteDoneHandler. `ok`: open, the residual diff write and rename worked. */
  function RewriteDone<D>(s: State<D>, ok: bool): State<D>
  {
    match s.rw.child
    case None => s
    case Some(c) =>
      if c.stage == ExitedErr || (c.stage == ExitedOk && !ok) then
        s.(rw := Cleanup(s.rw, s.log.mode == AofWaitRewrite))
      else if c.stage == ExitedOk then
        s.(log := SwitchLog(s.log, c.temp + s.rw.pending), rw := Cleanup(s.rw, false))
      else s
  }

  /** The machine loses power with `keep` bytes of the log on disk, and starts again. */
  function Restart<D>(ds: Dataset<D>, s: State<D>, keep: nat): State<D>
    requires keep <= |s.log.file|
  {
    var l := s.log.(buf := [], sel := -1, postponed := 0, writeOk := true);
    var r := Cleanup(s.rw, false).(rdbChild := false, scheduled := false);
    match Load(ds.sem, true, s.log.file[..keep])
    case EmptyFile => State(ds.sem.empty, l.(file := [], size := 0), r, false, false)
    case Loaded(c, size, _) =>
      if size <= keep then State(c.data, l.(file := s.log.file[..size], size := size), r, false, false)
      else s.(exited := true)
    case _ => s.(exited := true)
  }

  // ----- steps and runs -------------------------------------------------------------------

  datatype Event =
    | Command(db: nat, argv: Argv, now: int)
    | MultiFed(db: nat, now: int)
    | ExecFed(db: nat, now: int)
    | FlushEvent(fsync: Fsync, force: bool, syncing: bool, unixtime: int, n: nat, truncOk: bool)
    | TurnOn(openOk: bool, forkOk: bool, startSnapshot: seq<byte>)
    | TurnOff
    | ForkEvent(snapshot: seq<byte>)
    | Schedule
    | Cron(forkOk: bool, cronSnapshot: seq<byte>)
    | RdbFork
    | RdbDone
    | Send(n: nat)
    | Read(n: nat)
    | Ask
    | Ack(ackOk: bool)
    | GetAck
    | Finish
    | Fail
    | Done(ok: bool)
    | Crash(keep: nat)

  predicate IsPipeEvent(e: Event)
  {
    e.Send? || e.Read? || e.Ask? || e.Ack? || e.GetAck? || e.Finish? || e.Fail?
  }

  function PipeStep(r: Rewrite, e: Event): Rewrite
    requires IsPipeEvent(e)
  {
    match e
    case Send(n) => if n <= |r.pending| then SendDiff(r, n) else r
    case Read(n) => ChildRead(r, n)
    case Ask => ChildAsk(r)
    case Ack(ackOk) => ParentAck(r, ackOk)
    case GetAck => ChildGetAck(r)
    case Finish => ChildFinish(r)
    case Fail => ChildFail(r)
  }

  function Step<D>(ds: Dataset<D>, s: State<D>, e: Event): State<D>
  {
    if s.exited && !e.Crash? then s
    else if IsPipeEvent(e) then s.(rw := PipeStep(s.rw, e))
    else
      match e
      case Command(db, argv, now) => Propagate(ds, s, db, argv, now)
      case MultiFed(db, now) => FeedMulti(s, db, now)
      case ExecFed(db, now) => FeedExec(s, db, now)
      case FlushEvent(fsync, force, syncing, now, n, truncOk) =>
        if n <= |s.log.buf| then Flush(s, fsync, force, syncing, now, n, truncOk) else s
      case TurnOn(openOk, forkOk, snapshot) => StartAppendOnly(s, openOk, forkOk, snapshot)
      case TurnOff => StopAppendOnly(s)
      case ForkEvent(snapshot) => Fork(s, snapshot)
      case Schedule => s.(rw := s.rw.(scheduled := true))
      case Cron(forkOk, snapshot) => if s.rw.scheduled && forkOk then Fork(s, snapshot) else s
      case RdbFork => if s.rw.child.Some? then s else s.(rw := s.rw.(rdbChild := true))
      case RdbDone => s.(rw := s.rw.(rdbChild := false))
      case Done(ok) => RewriteDone(s, ok)
      case Crash(keep) =>
        if s.log.mode == AofOn && keep <= |s.log.file| then Restart(ds, s, keep) else s
      case _ => s
  }

  /** What the rest of the server guarantees: commands can be logged, transactions do not nest,
      and a forked child writes a snapshot that rebuilds the dataset it was forked with. Between
      MULTI and EXEC anything may happen, and an EXEC may come without its MULTI. A crash must not leave
      a file that ends inside a command of a transaction (see RestartDurable). */
  ghost predicate Allowed<D>(ds: Dataset<D>, s: State<D>, e: Event)
  {
    match e
    case Command(db, argv, now) => Feedable(ds, db, argv, now)
    case MultiFed(db, now) => Selectable(ds, db) && !s.multi
    case ExecFed(db, now) => Selectable(ds, db)
    case TurnOn(_, _, snapshot) => Tracks(ds.sem, snapshot, s.data, -1, false)
    case ForkEvent(snapshot) => Tracks(ds.sem, snapshot, s.data, -1, false)
    case Cron(_, snapshot) => Tracks(ds.sem, snapshot, s.data, -1, false)
    case Crash(keep) => s.log.mode == AofOn && keep <= |s.log.file| ==> !Torn(s.log.file[..keep])
    case _ => true
  }

  function Run<D>(ds: Dataset<D>, s: State<D>, events: seq<Event>): State<D>
  {
    if events == [] then s
    else Step(ds, Run(ds, s, events[..|events| - 1]), events[|events| - 1])
  }

  ghost predicate AllowedRun<D>(ds: Dataset<D>, s: State<D>, events: seq<Event>)
  {
    forall i :: 0 <= i < |events| ==> Allowed(ds, Run(ds, s, events[..i]), events[i])
  }

  function Boot<D>(ds: Dataset<D>, appendonly: bool): State<D>
  {
    State(ds.sem.empty,
          Log(if appendonly then AofOn else AofOff, appendonly, [], 0, [], -1, true, 0),
          NoRewrite(), false, false)
  }

  function NoRewrite(): Rewrite { Rewrite(None, false, false, [], [], [], [], false) }

  // ----- the invariant -----------------------------------------------------------------------

  /** No byte fed since the fork is lost, repeated or reordered on its way to the file. */
  ghost predicate Handshake(r: Rewrite)
  {
    match r.child
    case None => r.pending == []
    case Some(c) =>
      && !r.rdbChild
      && c.diff + r.dataPipe + r.pending == c.fed
      && (c.stage == ExitedOk ==> r.stop && r.dataPipe == [] && c.temp == c.snapshot + c.diff)
      && (c.stage != ExitedOk && c.stage != ExitedErr ==> c.temp == c.snapshot)
      && (c.stage == Rewriting ==> r.askPipe == [] && r.ackPipe == [])
      && (c.stage == Acked || r.ackPipe != [] ==> r.stop)
  }

  /** The log replays to the current dataset, */
  ghost predicate LogTracks<D>(ds: Dataset<D>, l: Log, data: D, multi: bool)
  {
    && (l.open <==> l.mode != AofOff)
    && (l.mode == AofOn ==> l.size == |l.file| && Tracks(ds.sem, l.file + l.buf, data, l.sel, multi))
  }

  /** and so will the file being rewritten. */
  ghost predicate RewriteTracks<D>(ds: Dataset<D>, s: State<D>)
  {
    s.rw.child.Some? && s.log.mode != AofOff ==>
      Tracks(ds.sem, s.rw.child.value.snapshot + s.rw.child.value.fed, s.data, s.log.sel, s.multi)
  }

  ghost predicate LiveInv<D>(ds: Dataset<D>, s: State<D>)
  {
    !s.exited && LogTracks(ds, s.log, s.data, s.multi) && Handshake(s.rw) && RewriteTracks(ds, s)
  }

  /** After an exit on a write error, the file is at least a part of such a log. */
  ghost predicate ExitInv<D>(ds: Dataset<D>, s: State<D>)
  {
    && (s.log.open <==> s.log.mode != AofOff)
    && (s.log.mode == AofOn ==>
          exists rest: seq<byte> :: Tracks(ds.sem, s.log.file + rest, s.data, s.log.sel, s.multi))
  }

  ghost predicate Inv<D>(ds: Dataset<D>, s: State<D>)
  {
    if s.exited then ExitInv(ds, s) else LiveInv(ds, s)
  }

  lemma BootInv<D>(ds: Dataset<D>, appendonly: bool)
    ensures Inv(ds, Boot(ds, appendonly))
  {
    EmptyTracks(ds.sem);
    var none: seq<byte> := [];
    assert none + none == none;
  }

  lemma EmptyTracks<D>(sem: Semantics<D>)
    ensures Tracks(sem, [], sem.empty, -1, false)
  {
    assert GoodLog(sem, [], false) && PrintAll([]) == [] && ExecAll(sem, Start(sem), []) == Client(0, sem.empty);
    assert Replays(sem, [], Client(0, sem.empty), false);
  }

  // ----- commands and flushes ----------------------------------------------------------------

  lemma FedInv<D>(ds: Dataset<D>, s: State<D>, fed: seq<Argv>, db': nat, data': D, multi': bool)
    requires LiveInv(ds, s) && Extends(ds.sem, s.multi, fed, multi')
    requires Effect(ds.sem, s.log.sel, s.data, fed, db', data')
    ensures LiveInv(ds, Fed(s, db', PrintAll(fed), data').(multi := multi'))
  {
    hide PrintAll, Tracks, Extends, Effect;
    var l, r := s.log, s.rw;
    var bytes := PrintAll(fed);
    if l.mode == AofOn {
      TracksMore(ds.sem, l.file + l.buf, s.data, l.sel, s.multi, fed, db', data', multi');
      assert l.file + (l.buf + bytes) == l.file + l.buf + bytes;
    }
    if r.child.Some? {
      var c := r.child.value;
      if l.mode != AofOff {
        TracksMore(ds.sem, c.snapshot + c.fed, s.data, l.sel, s.multi, fed, db', data', multi');
        assert c.snapshot + (c.fed + bytes) == c.snapshot + c.fed + bytes;
      }
      assert c.diff + r.dataPipe + (r.pending + bytes) == c.diff + r.dataPipe + r.pending + bytes;
    }
  }

  lemma PropagateInv<D(!new)>(ds: Dataset<D>, s: State<D>, db: nat, argv: Argv, now: int)
    requires Lawful(ds) && LiveInv(ds, s) && Feedable(ds, db, argv, now)
    ensures LiveInv(ds, Propagate(ds, s, db, argv, now))
  {
    hide LiveInv, Fed, Propagate, Feedable, Lawful, LogCommands, Extends, Effect, FeedCommands;
    FedCommand(ds, s.data, s.log.sel, db, argv, now);
    PlainExtends(ds.sem, s.multi, FeedCommands(s.log.sel, db, argv, now));
    PropagateIsFed(ds, s, db, argv, now);
    FedInv(ds, s, FeedCommands(s.log.sel, db, argv, now), db, ds.live(s.data, db, argv, now), s.multi);
  }

  /** MULTI and EXEC, with anything in between, on all that happened in between. */
  lemma TransactionInv<D(!new)>(ds: Dataset<D>, s: State<D>, db: nat, now: int)
    requires Lawful(ds) && LiveInv(ds, s) && Selectable(ds, db)
    ensures !s.multi ==> LiveInv(ds, FeedMulti(s, db, now))
    ensures LiveInv(ds, FeedExec(s, db, now))
  {
    hide LiveInv, Fed, Lawful, Extends, Effect, FeedOne;
    if !s.multi {
      FedMarker(ds, s.data, s.log.sel, s.multi, db, MULTI);
      MarkerFed(s, db, MULTI, now);
      FedInv(ds, s, Select(s.log.sel, db) + [MULTI], db, s.data, true);
    }
    FedMarker(ds, s.data, s.log.sel, s.multi, db, EXEC);
    MarkerFed(s, db, EXEC, now);
    FedInv(ds, s, Select(s.log.sel, db) + [EXEC], db, s.data, false);
  }

  /** What is on disk followed by what is in memory stays the same log, whether the
      write is full, short and undone, or short and left. */
  lemma WriteOutKeepsLog(l: Log, k: nat, truncOk: bool)
    requires k <= |l.buf| && l.size == |l.file|
    ensures var t := WriteOut(l, k, truncOk);
            t.size == |t.file| && t.file + t.buf == l.file + l.buf
    ensures var t := DieOut(l, k, truncOk);
            t.file == l.file || t.file + l.buf[k..] == l.file + l.buf
  {
    var f := l.file + l.buf[..k];
    assert Truncate(f, l.size) == l.file;
    assert l.file + l.buf == f + l.buf[k..];
  }

  /** A flush may write all, part or nothing, fail to undo a part, postpone, or exit. */
  lemma FlushInv<D>(ds: Dataset<D>, s: State<D>, fsync: Fsync, force: bool, syncing: bool, now: int, n: nat,
                    truncOk: bool)
    requires LiveInv(ds, s) && n <= |s.log.buf|
    ensures Inv(ds, Flush(s, fsync, force, syncing, now, n, truncOk))
  {
    hide Tracks, Truncate, Handshake;
    var l := s.log;
    var k := if l.open then n else 0;
    var t := Flush(s, fsync, force, syncing, now, n, truncOk);
    if l.mode == AofOn {
      WriteOutKeepsLog(l, k, truncOk);
      if t.exited {
        var rest := if t.log.file == l.file then l.buf else l.buf[k..];
        assert t.log.file + rest == l.file + l.buf;
      }
    }
  }

  /** When nothing stands against it, a flush whose write takes all brings the whole buffer to the
      file. Only a running fsync under appendfsync everysec stands against it, for less than two
      seconds, unless the flush is forced. */
  lemma FlushWrites<D>(s: State<D>, fsync: Fsync, force: bool, syncing: bool, now: int, truncOk: bool)
    requires s.log.open && s.log.buf != []
    requires fsync != FsyncEverysec || force || !syncing || (s.log.postponed != 0 && now - s.log.postponed >= 2)
    ensures var t := Flush(s, fsync, force, syncing, now, |s.log.buf|, truncOk);
            && t.log.file == s.log.file + s.log.buf && t.log.buf == [] && t.log.writeOk && t.log.postponed == 0
            && t.log.size == s.log.size + |s.log.buf| && t.exited == s.exited && t.data == s.data && t.rw == s.rw
  {
  }

  /** In the other case nothing is written, and the time of the first such flush is kept. */
  lemma FlushWaits<D>(s: State<D>, force: bool, syncing: bool, now: int, n: nat, truncOk: bool)
    requires n <= |s.log.buf| && s.log.buf != [] && now != 0
    requires !force && syncing && (s.log.postponed == 0 || now - s.log.postponed < 2)
    ensures Flush(s, FsyncEverysec, force, syncing, now, n, truncOk)
         == s.(log := s.log.(postponed := if s.log.postponed == 0 then now else s.log.postponed))
  {
  }

  /** A write that takes a part, or fails: with appendfsync always the server exits, so no flush
      returns with bytes left; otherwise an error is noted, and either the file or the buffer is as
      before, or the rest stays in the buffer. */
  lemma FlushFalls<D>(s: State<D>, fsync: Fsync, force: bool, syncing: bool, now: int, n: nat, truncOk: bool)
    requires n < |s.log.buf| && s.log.open
    requires fsync != FsyncEverysec || force || !syncing || (s.log.postponed != 0 && now - s.log.postponed >= 2)
    ensures var t := Flush(s, fsync, force, syncing, now, n, truncOk);
            && (fsync == FsyncAlways ==> t.exited)
            && (fsync != FsyncAlways ==>
                  && t.exited == s.exited && !t.log.writeOk
                  && (s.log.size == |s.log.file| && 0 < n && truncOk ==>
                        t.log.file == s.log.file && t.log.buf == s.log.buf)
                  && (!truncOk || n == 0 ==>
                        t.log.file == s.log.file + s.log.buf[..n] && t.log.buf == s.log.buf[n..]))
  {
  }

  lemma AlwaysFlushes<D>(s: State<D>, force: bool, syncing: bool, now: int, n: nat, truncOk: bool)
    requires n <= |s.log.buf|
    ensures var t := Flush(s, FsyncAlways, force, syncing, now, n, truncOk);
            !t.exited ==> t.log.buf == [] && t.log.file == s.log.file + s.log.buf
  {
  }

  /** What writes have taken. */
  function Taken(results: seq<WriteResult>): nat
  {
    if results == [] then 0 else (if results[0].Wrote? then results[0].n else 0) + Taken(results[1..])
  }

  /** aofWrite goes on after short and interrupted writes until all is written, or one fails. */
  lemma {:induction false} WritesUntil(len: nat, results: seq<WriteResult>, fails: nat)
    requires fails <= |results| && forall i :: 0 <= i < fails ==> !results[i].WriteFailed?
    requires fails < |results| ==> results[fails].WriteFailed?
    ensures var taken := Taken(results[..fails]);
            WriteTotal(len, results) == if taken < len then taken else len
    decreases |results|
  {
    if len > 0 && fails > 0 {
      assert results[..fails][1..] == results[1..][..fails - 1];
      var n := if results[0].Wrote? then results[0].n else 0;
      if n < len { WritesUntil(len - n, results[1..], fails - 1); } else { NothingToWrite(results[1..]); }
    }
  }

  lemma NothingToWrite(results: seq<WriteResult>)
    ensures WriteTotal(0, results) == 0
  {
  }

  // ----- forks and switches -------------------------------------------------------------------

  /** A fork starts a rewrite of the dataset as it is, with nothing fed to it yet. */
  lemma NewChildInv<D>(ds: Dataset<D>, s: State<D>, l: Log, snapshot: seq<byte>)
    requires LogTracks(ds, s.log, s.data, s.multi) && Handshake(s.rw) && s.rw.child.None? && !s.rw.rdbChild && !s.exited
    requires Tracks(ds.sem, snapshot, s.data, -1, false)
    requires l == s.log.(sel := -1) || (l == s.log.(sel := -1, mode := AofWaitRewrite, open := true))
    ensures LiveInv(ds, s.(log := l, rw := NewChild(s.rw, snapshot)))
  {
    hide Tracks;
    assert snapshot + [] == snapshot;
    TracksOpen(ds.sem, snapshot, s.data, -1, s.multi);
    if s.log.mode == AofOn { TracksForget(ds.sem, s.log.file + s.log.buf, s.data, s.log.sel, s.multi); }
  }

  lemma ForkInv<D>(ds: Dataset<D>, s: State<D>, snapshot: seq<byte>)
    requires LiveInv(ds, s) && Tracks(ds.sem, snapshot, s.data, -1, false)
    ensures LiveInv(ds, Fork(s, snapshot))
  {
    hide Tracks, NewChild, Handshake;
    if s.rw.child.None? && !s.rw.rdbChild { NewChildInv(ds, s, s.log.(sel := -1), snapshot); }
  }

  lemma StartInv<D>(ds: Dataset<D>, s: State<D>, openOk: bool, forkOk: bool, snapshot: seq<byte>)
    requires LiveInv(ds, s) && Tracks(ds.sem, snapshot, s.data, -1, false)
    ensures LiveInv(ds, StartAppendOnly(s, openOk, forkOk, snapshot))
  {
    hide Tracks, NewChild;
    if s.log.mode == AofOff && openOk && !s.rw.rdbChild && forkOk {
      NewChildInv(ds, s.(rw := KillChild(s.rw)), s.log.(sel := -1, mode := AofWaitRewrite, open := true), snapshot);
    }
  }

  lemma StopInv<D>(ds: Dataset<D>, s: State<D>)
    requires LiveInv(ds, s)
    ensures LiveInv(ds, StopAppendOnly(s))
  {
    hide Tracks;
  }

  /** A successful rewrite is exactly the snapshot and every byte fed since the fork. */
  lemma RewriteExact<D>(ds: Dataset<D>, s: State<D>)
    requires Handshake(s.rw) && s.rw.child.Some? && s.rw.child.value.stage == ExitedOk
    ensures RewriteDone(s, true).log.file == s.rw.child.value.snapshot + s.rw.child.value.fed
  {
    var c := s.rw.child.value;
    assert c.diff + [] + s.rw.pending == c.diff + s.rw.pending;
    assert c.temp + s.rw.pending == c.snapshot + (c.diff + s.rw.pending);
  }

  lemma RewriteDoneInv<D>(ds: Dataset<D>, s: State<D>, ok: bool)
    requires LiveInv(ds, s)
    ensures LiveInv(ds, RewriteDone(s, ok))
  {
    hide Tracks;
    if s.rw.child.Some? && s.rw.child.value.stage == ExitedOk && ok {
      var t := RewriteDone(s, ok);
      RewriteExact(ds, s);
      if t.log.mode == AofOn {
        assert t.log.file + t.log.buf == t.log.file;
        TracksForget(ds.sem, t.log.file, s.data, s.log.sel, s.multi);
      }
    }
  }

  // ----- the handshake ---------------------------------------------------------------------------

  lemma SendKeeps(r: Rewrite, n: nat)
    requires n <= |r.pending| && Handshake(r)
    ensures Handshake(SendDiff(r, n))
  {
    if r.child.Some? {
      var c := r.child.value;
      assert r.pending == r.pending[..n] + r.pending[n..];
      assert c.diff + (r.dataPipe + r.pending[..n]) + r.pending[n..] == c.diff + r.dataPipe + r.pending;
    }
  }

  lemma ReadKeeps(r: Rewrite, n: nat)
    requires Handshake(r)
    ensures Handshake(ChildRead(r, n))
  {
    if r.child.Some? && n <= |r.dataPipe| {
      var c := r.child.value;
      assert r.dataPipe == r.dataPipe[..n] + r.dataPipe[n..];
      assert (c.diff + r.dataPipe[..n]) + r.dataPipe[n..] + r.pending == c.diff + r.dataPipe + r.pending;
    }
  }

  /** Every step of the pipes and of the child, in any order, keeps the handshake, and
      leaves what the child was forked with and fed alone. */
  lemma PipeStepKeeps(r: Rewrite, e: Event)
    requires IsPipeEvent(e) && Handshake(r)
    ensures var t := PipeStep(r, e);
            && Handshake(t)
            && (t.child.Some? <==> r.child.Some?)
            && (t.child.Some? ==> t.child.value.snapshot == r.child.value.snapshot
                                  && t.child.value.fed == r.child.value.fed)
  {
    match e
    case Send(n) => if n <= |r.pending| { SendKeeps(r, n); }
    case Read(n) => ReadKeeps(r, n);
    case _ =>
  }

  // ----- crashes --------------------------------------------------------------------------------------

  /** After a restart the dataset is that of the complete transactions and commands in what
      was left on disk, however the log had been written so far; and so is the file, unless
      what was left ends inside a command of a transaction: then that transaction stays in
      the file, up to its last complete command. */
  lemma RestartRecovers<D>(ds: Dataset<D>, s: State<D>, keep: nat, log: seq<Argv>)
    requires keep <= |s.log.file| && GoodLog(ds.sem, log, true) && s.log.file <= PrintAll(log)
    ensures var whole := log[..WholeCommands(log, keep)];
            var left := if Torn(s.log.file[..keep]) then whole else Committed(whole);
            var t := Restart(ds, s, keep);
            && !t.exited && !t.multi
            && t.data == ExecAll(ds.sem, Start(ds.sem), Committed(whole)).data
            && t.log == s.log.(file := PrintAll(left), size := Size(left), buf := [], sel := -1,
                             postponed := 0, writeOk := true)
            && t.rw.child.None? && t.rw.pending == []
            && (Torn(s.log.file[..keep]) <==> OpenMulti(whole) != -1 && keep != Size(whole))
  {
    hide PrintAll, ExecAll, Load, WholeCommands, Torn, Committed, GoodLog, OpenMulti;
    KeptLoads(ds, s.log.file, keep, log);
  }

  lemma {:induction false} KeptLoads<D>(ds: Dataset<D>, file: seq<byte>, keep: nat, log: seq<Argv>)
    requires keep <= |file| && GoodLog(ds.sem, log, true) && file <= PrintAll(log)
    ensures var whole := log[..WholeCommands(log, keep)];
            var torn := OpenMulti(whole) != -1 && keep != Size(whole);
            var left := if torn then whole else Committed(whole);
            var o := Load(ds.sem, true, file[..keep]);
            && (Torn(file[..keep]) <==> torn)
            && Size(left) <= keep && file[..Size(left)] == PrintAll(left)
            && (keep == 0 ==> o == EmptyFile && left == [] && PrintAll(left) == []
                              && ExecAll(ds.sem, Start(ds.sem), Committed(whole)).data == ds.sem.empty)
            && (keep > 0 ==>
                  && o.Loaded? && o.client == ExecAll(ds.sem, Start(ds.sem), Committed(whole))
                  && o.size == Size(left))
  {
    hide LoadFrom, PrintCommand, ExecAll, Load, PrintAll, IsNamed, Loadable, Complete;
    var k := WholeCommands(log, keep);
    var whole := log[..k];
    KeptPrefix(file, keep, log);
    TornIs(ds.sem, file, keep, log);
    CommittedSize(whole);
    CommittedPrefix(whole);
    assert file[..Size(Committed(whole))] == file[..Size(whole)][..Size(Committed(whole))];
    if keep == 0 {
      EmptyRestart(ds, log);
    } else {
      CutTransactions(ds.sem, log, keep);
    }
  }

  lemma CommittedPrefix(log: seq<Argv>)
    ensures Size(Committed(log)) <= Size(log) && PrintAll(log)[..Size(Committed(log))] == PrintAll(Committed(log))
  {
    hide OpenMulti, PrintAll;
    if OpenMulti(log) != -1 {
      var n := OpenMulti(log);
      assert log == log[..n] + log[n..];
      PrintAllAppend(log[..n], log[n..]);
    } else {
      assert PrintAll(log)[..|PrintAll(log)|] == PrintAll(log);
    }
  }

  /** The file says it itself. */
  lemma TornIs<D>(sem: Semantics<D>, file: seq<byte>, keep: nat, log: seq<Argv>)
    requires keep <= |file| && GoodLog(sem, log, true) && file <= PrintAll(log)
    ensures var whole := log[..WholeCommands(log, keep)];
            Torn(file[..keep]) <==> OpenMulti(whole) != -1 && keep != Size(whole)
  {
    hide PrintAll, Complete, OpenMulti, IsNamed;
    forall i | 0 <= i < |log| ensures Storable(log[i]) { assert Loadable(sem, log[i]); }
    CompleteOfPrinted(log, keep);
    CutIsMaximal(log, keep);
    assert file[..keep] == PrintAll(log)[..keep];
  }

  /** The log before an open MULTI is good. */
  lemma CommittedGood<D>(sem: Semantics<D>, log: seq<Argv>, k: nat)
    requires GoodLog(sem, log, true) && k <= |log|
    ensures GoodLog(sem, Committed(log[..k]), false)
  {
    hide OpenMulti, IsNamed, Loadable;
    TransactionalPrefix(log, k);
    var whole := log[..k];
    OpenIsMulti(whole);
    var n := OpenMulti(whole);
    if n != -1 {
      TransactionalPrefix(whole, n);
      assert whole[..n] == Committed(whole);
    }
  }

  lemma KeptPrefix(file: seq<byte>, keep: nat, log: seq<Argv>)
    requires keep <= |file| && file <= PrintAll(log)
    ensures var done := log[..WholeCommands(log, keep)];
            && file[..keep] == PrintAll(log)[..keep]
            && Size(done) <= keep && file[..Size(done)] == PrintAll(done)
  {
    hide PrintAll;
    CutSplits(log, keep);
    CutIsMaximal(log, keep);
    var done := log[..WholeCommands(log, keep)];
    assert file[..keep] == PrintAll(log)[..keep];
    assert file[..Size(done)] == file[..keep][..Size(done)];
  }

  lemma EmptyRestart<D>(ds: Dataset<D>, log: seq<Argv>)
    ensures Load(ds.sem, true, []) == EmptyFile
    ensures WholeCommands(log, 0) == 0 && log[..0] == []
    ensures ExecAll(ds.sem, Start(ds.sem), []).data == ds.sem.empty
  {
    hide LoadFrom, PrintCommand;
  }

  lemma RestartInv<D>(ds: Dataset<D>, s: State<D>, keep: nat)
    requires Inv(ds, s) && s.log.mode == AofOn && keep <= |s.log.file| && !Torn(s.log.file[..keep])
    ensures LiveInv(ds, Restart(ds, s, keep))
  {
    hide Restart, ExecAll, PrintAll, WholeCommands, Torn, Committed, GoodLog;
    var log := LogOnDisk(ds, s);
    RestartRecovers(ds, s, keep, log);
    CommittedGood(ds.sem, log, WholeCommands(log, keep));
    var done := Committed(log[..WholeCommands(log, keep)]);
    DoneTracks(ds.sem, done);
    assert PrintAll(done) + [] == PrintAll(done);
  }

  /** A log that the file is the start of. */
  ghost function LogOnDisk<D>(ds: Dataset<D>, s: State<D>): (log: seq<Argv>)
    requires Inv(ds, s) && s.log.mode == AofOn
    ensures GoodLog(ds.sem, log, true) && s.log.file <= PrintAll(log)
  {
    if s.exited then
      var r: seq<byte> :| Tracks(ds.sem, s.log.file + r, s.data, s.log.sel, s.multi);
      LogOf(ds.sem, s.log.file + r, s.data, s.log.sel, s.multi)
    else LogOf(ds.sem, s.log.file + s.log.buf, s.data, s.log.sel, s.multi)
  }

  /** A restart leaves a file that loads to the dataset iff what was left on disk does not
      end inside a command of a transaction. */
  lemma {:induction false} RestartDurable<D>(ds: Dataset<D>, s: State<D>, keep: nat)
    requires Inv(ds, s) && s.log.mode == AofOn && keep <= |s.log.file|
    ensures var t := Restart(ds, s, keep);
            !t.exited && (LoadsTo(ds.sem, t.log.file + t.log.buf, t.data) <==> !Torn(s.log.file[..keep]))
  {
    hide Restart, ExecAll, PrintAll, WholeCommands, Torn, Committed, GoodLog, Load, OpenMulti, Loadable, IsNamed;
    hide PrintCommand;
    var t := Restart(ds, s, keep);
    var log := LogOnDisk(ds, s);
    RestartRecovers(ds, s, keep, log);
    if Torn(s.log.file[..keep]) {
      var whole := log[..WholeCommands(log, keep)];
      assert t.log.file + t.log.buf == PrintAll(whole);
      OpenLoads(ds.sem, log, WholeCommands(log, keep), t.data);
    } else {
      RestartInv(ds, s, keep);
      LiveLoads(ds, t);
    }
  }

  lemma OpenLoads<D>(sem: Semantics<D>, log: seq<Argv>, k: nat, data: D)
    requires GoodLog(sem, log, true) && k <= |log| && OpenMulti(log[..k]) != -1
    ensures !LoadsTo(sem, PrintAll(log[..k]), data)
  {
    hide PrintAll, OpenMulti, Load, Loadable, IsNamed, PrintCommand, ExecAll;
    var whole := log[..k];
    TransactionalPrefix(log, k);
    CommittedSize(whole);
    WholeIsWhole(whole);
    assert whole[..|whole|] == whole && PrintAll(whole)[..Size(whole)] == PrintAll(whole);
    CutTransactions(sem, whole, Size(whole));
  }

  lemma LiveLoads<D>(ds: Dataset<D>, s: State<D>)
    requires LiveInv(ds, s) && s.log.mode == AofOn && !s.multi
    ensures LoadsTo(ds.sem, s.log.file + s.log.buf, s.data)
  {
    hide Tracks, LoadsTo, Handshake, RewriteTracks, GoodLog;
    var log := LogOf(ds.sem, s.log.file + s.log.buf, s.data, s.log.sel, false);
    GoodLoads(ds.sem, log);
  }

  lemma DoneTracks<D>(sem: Semantics<D>, log: seq<Argv>)
    requires GoodLog(sem, log, false)
    ensures Tracks(sem, PrintAll(log), ExecAll(sem, Start(sem), log).data, -1, false)
  {
    hide ExecAll, PrintAll;
    var c := ExecAll(sem, Start(sem), log);
    assert Replays(sem, PrintAll(log), Client(c.db, c.data), false);
  }

  ghost function LogOf<D>(sem: Semantics<D>, bytes: seq<byte>, data: D, sel: int, open: bool): (log: seq<Argv>)
    requires Tracks(sem, bytes, data, sel, open)
    ensures GoodLog(sem, log, open) && bytes == PrintAll(log)
    ensures ExecAll(sem, Start(sem), log).data == data
  {
    var db: nat :| Replays(sem, bytes, Client(db, data), open) && (sel == -1 || sel == db);
    var log :| GoodLog(sem, log, open) && bytes == PrintAll(log) && ExecAll(sem, Start(sem), log) == Client(db, data);
    log
  }

  // ----- every step, every run ----------------------------------------------------------------------------

  lemma PipeStepInv<D>(ds: Dataset<D>, s: State<D>, e: Event)
    requires LiveInv(ds, s) && IsPipeEvent(e)
    ensures LiveInv(ds, s.(rw := PipeStep(s.rw, e)))
  {
    hide Tracks, Handshake, PipeStep;
    PipeStepKeeps(s.rw, e);
  }

  lemma StepInv<D(!new)>(ds: Dataset<D>, s: State<D>, e: Event)
    requires Lawful(ds) && Inv(ds, s) && Allowed(ds, s, e)
    ensures Inv(ds, Step(ds, s, e))
  {
    hide Lawful, Tracks, Feedable, PipeStep, Propagate, Flush, StartAppendOnly, StopAppendOnly, Fork, RewriteDone;
    hide Restart, FeedMulti, FeedExec, Selectable;
    if s.exited && !e.Crash? {
    } else if IsPipeEvent(e) {
      PipeStepInv(ds, s, e);
    } else {
      match e
      case Command(db, argv, now) => PropagateInv(ds, s, db, argv, now);
      case MultiFed(db, now) => TransactionInv(ds, s, db, now);
      case ExecFed(db, now) => TransactionInv(ds, s, db, now);
      case FlushEvent(fsync, force, syncing, now, n, truncOk) =>
        if n <= |s.log.buf| { FlushInv(ds, s, fsync, force, syncing, now, n, truncOk); }
      case TurnOn(openOk, forkOk, snapshot) => StartInv(ds, s, openOk, forkOk, snapshot);
      case TurnOff => StopInv(ds, s);
      case ForkEvent(snapshot) => ForkInv(ds, s, snapshot);
      case Cron(_, snapshot) => ForkInv(ds, s, snapshot);
      case Done(ok) => RewriteDoneInv(ds, s, ok);
      case Crash(keep) => if s.log.mode == AofOn && keep <= |s.log.file| { RestartInv(ds, s, keep); }
      case _ =>
    }
  }

  lemma {:induction false} RunInv<D(!new)>(ds: Dataset<D>, s: State<D>, events: seq<Event>)
    requires Lawful(ds) && Inv(ds, s) && AllowedRun(ds, s, events)
    ensures Inv(ds, Run(ds, s, events))
    decreases |events|
  {
    hide Lawful, Inv, Allowed, Step;
    if events != [] {
      var n := |events| - 1;
      var init := events[..n];
      forall i | 0 <= i < n ensures Allowed(ds, Run(ds, s, init[..i]), init[i]) {
        assert init[..i] == events[..i];
      }
      RunInv(ds, s, init);
      assert Allowed(ds, Run(ds, s, events[..n]), events[n]);
      StepInv(ds, Run(ds, s, init), events[n]);
    }
  }

  /** What loadAppendOnlyFile makes of the bytes: exactly `data`, with nothing cut off. */
  ghost predicate LoadsTo<D>(sem: Semantics<D>, bytes: seq<byte>, data: D)
  {
    match Load(sem, true, bytes)
    case EmptyFile => data == sem.empty
    case Loaded(c, size, truncated) => c.data == data && size == |bytes| && !truncated
    case _ => false
  }

  lemma GoodLoads<D>(sem: Semantics<D>, log: seq<Argv>)
    requires GoodLog(sem, log, false)
    ensures LoadsTo(sem, PrintAll(log), ExecAll(sem, Start(sem), log).data)
  {
    hide LoadFrom, ExecAll, PrintCommand;
    if log == [] {
      NothingRan(sem);
    } else {
      hide Load;
      LoadWhole(sem, log);
      assert PrintAll(log) == PrintCommand(log[0]) + PrintAll(log[1..]);
    }
  }

  /** What EXEC would make of the bytes, if MULTI was propagated. */
  function Closed(bytes: seq<byte>, multi: bool): seq<byte> { if multi then bytes + PrintAll([EXEC]) else bytes }

  lemma TracksLoads<D(!new)>(ds: Dataset<D>, bytes: seq<byte>, data: D, sel: int, multi: bool)
    requires Lawful(ds) && Tracks(ds.sem, bytes, data, sel, multi)
    ensures LoadsTo(ds.sem, Closed(bytes, multi), data)
  {
    hide LoadsTo, ExecAll, PrintAll, GoodLog, Lawful, Exec;
    var log := LogOf(ds.sem, bytes, data, sel, multi);
    if multi {
      LawfulKnows(ds);
      MarkerExtends(ds.sem, true, EXEC);
      assert GoodLog(ds.sem, log + [EXEC], false) by { assert EXEC != MULTI by { MarkersNamed(); } }
      PrintAllAppend(log, [EXEC]);
      ExecAllSnoc(ds.sem, Start(ds.sem), log, EXEC);
      MarkerRuns(ds.sem, ExecAll(ds.sem, Start(ds.sem), log), EXEC);
      GoodLoads(ds.sem, log + [EXEC]);
    } else {
      GoodLoads(ds.sem, log);
    }
  }

  lemma NothingRan<D>(sem: Semantics<D>)
    ensures ExecAll(sem, Start(sem), []) == Client(0, sem.empty)
  {
  }

  /** Durability. In every run from boot (commands, MULTI and EXEC with anything in between, flushes
      with any write outcome, switching the AOF on and off, rewrites that succeed or fail,
      crashes), whenever the AOF is on, loading the file followed by the buffer gives the
      dataset; after MULTI, with its EXEC behind. */
  lemma Durable<D(!new)>(ds: Dataset<D>, appendonly: bool, events: seq<Event>)
    requires Lawful(ds) && AllowedRun(ds, Boot(ds, appendonly), events)
    ensures var s := Run(ds, Boot(ds, appendonly), events);
            s.log.mode == AofOn && !s.exited ==>
              s.log.size == |s.log.file| && LoadsTo(ds.sem, Closed(s.log.file + s.log.buf, s.multi), s.data)
  {
    hide Lawful, Tracks, LoadsTo, Step, Handshake, Closed;
    BootInv(ds, appendonly);
    RunInv(ds, Boot(ds, appendonly), events);
    var s := Run(ds, Boot(ds, appendonly), events);
    if s.log.mode == AofOn && !s.exited { TracksLoads(ds, s.log.file + s.log.buf, s.data, s.log.sel, s.multi); }
  }

  /** A rewrite of a live log is exact in every run: whatever the interleaving of feeds,
      partial pipe writes and reads, stop request and acknowledgement, the new file is
      the snapshot and all bytes fed since, and loads to the dataset of the moment. */
  lemma RewriteInEveryRun<D(!new)>(ds: Dataset<D>, appendonly: bool, events: seq<Event>)
    requires Lawful(ds) && AllowedRun(ds, Boot(ds, appendonly), events)
    ensures var s := Run(ds, Boot(ds, appendonly), events);
            !s.exited && s.rw.child.Some? && s.rw.child.value.stage == ExitedOk ==>
              var t := RewriteDone(s, true);
              && t.log.file == s.rw.child.value.snapshot + s.rw.child.value.fed
              && (s.log.mode != AofOff ==>
                    t.log.mode == AofOn && LoadsTo(ds.sem, Closed(t.log.file, s.multi), s.data))
  {
    hide Lawful, Tracks, LoadsTo, Step, Closed;
    BootInv(ds, appendonly);
    RunInv(ds, Boot(ds, appendonly), events);
    var s := Run(ds, Boot(ds, appendonly), events);
    if !s.exited && s.rw.child.Some? && s.rw.child.value.stage == ExitedOk {
      RewriteExact(ds, s);
      if s.log.mode != AofOff {
        TracksLoads(ds, s.rw.child.value.snapshot + s.rw.child.value.fed, s.data, s.log.sel, s.multi);
      }
    }
  }

  /** Runs compose. */
  lemma {:induction false} RunAppend<D>(ds: Dataset<D>, s: State<D>, a: seq<Event>, b: seq<Event>)
    ensures Run(ds, s, a + b) == Run(ds, Run(ds, s, a), b)
    decreases |b|
  {
    hide Step;
    if b == [] {
      assert a + b == a;
    } else {
      var n := |b| - 1;
      RunAppend(ds, s, a, b[..n]);
      assert (a + b)[..|a| + n] == a + b[..n];
    }
  }

  lemma {:induction false} RunOne<D>(ds: Dataset<D>, s: State<D>, e: Event)
    ensures Run(ds, s, [e]) == Step(ds, s, e) && Run(ds, s, []) == s
  {
    hide Step;
    assert [e][..0] == [] && Run(ds, s, []) == s;
  }

  lemma SelectAfterFork(db: nat)
    ensures Select(-1, db) == [SelectCommand(db)]
  {
  }

  /** A rewrite that starts between MULTI and EXEC: the new file will hold the EXEC alone. */
  lemma ForkInTransaction<D>(ds: Dataset<D>, s: State<D>, db: nat, now: int, snapshot: seq<byte>)
    requires s.log.mode == AofOn && !s.exited && s.rw.child.None? && !s.rw.rdbChild
    ensures var t := Run(ds, s, [MultiFed(db, now), ForkEvent(snapshot), ExecFed(db, now)]);
            && t.log.buf == s.log.buf + PrintAll(Select(s.log.sel, db) + [MULTI]) + PrintAll([SelectCommand(db), EXEC])
            && t.rw.child.Some? && t.rw.child.value.fed == PrintAll([SelectCommand(db), EXEC])
  {
    hide PrintAll, FeedOne, Select, Run;
    var a, b, c := MultiFed(db, now), ForkEvent(snapshot), ExecFed(db, now);
    assert [a, b, c] == [a] + ([b] + [c]);
    RunAppend(ds, s, [a], [b] + [c]);
    RunOne(ds, s, a);
    var s1 := Step(ds, s, a);
    RunAppend(ds, s1, [b], [c]);
    RunOne(ds, s1, b);
    RunOne(ds, Step(ds, s1, b), c);
    MarkerFed(s, db, MULTI, now);
    var s2 := Step(ds, s1, b);
    MarkerFed(s2, db, EXEC, now);
    SelectAfterFork(db);
    assert [SelectCommand(db)] + [EXEC] == [SelectCommand(db), EXEC];
    assert [] + PrintAll([SelectCommand(db), EXEC]) == PrintAll([SelectCommand(db), EXEC]);
  }

  // ----- a rewrite that ends well ---------------------------------------------------------------------------

  lemma RunMore<D>(ds: Dataset<D>, s: State<D>, events: seq<Event>, e: Event)
    ensures Run(ds, s, events + [e]) == Step(ds, Run(ds, s, events), e)
  {
    hide Step;
    RunAppend(ds, s, events, [e]);
    RunOne(ds, Run(ds, s, events), e);
  }

  /** A child that has written the snapshot, when the parent answers and everything is read. */
  function GoodEnd(n: nat): seq<Event> { [Ask, Ack(true), GetAck, Read(n), Finish, Done(true)] }

  lemma GoodEndRuns<D>(ds: Dataset<D>, s: State<D>, n: nat)
    ensures var t := Step(ds, Step(ds, Step(ds, s, Ask), Ack(true)), GetAck);
            Run(ds, s, GoodEnd(n)) == Step(ds, Step(ds, Step(ds, t, Read(n)), Finish), Done(true))
  {
    hide Step, Run;
    var a, b, c := [Ask], [Ask, Ack(true)], [Ask, Ack(true), GetAck];
    var d := c + [Read(n)];
    RunOne(ds, s, Ask);
    assert b == a + [Ack(true)] && c == b + [GetAck];
    RunMore(ds, s, a, Ack(true));
    RunMore(ds, s, b, GetAck);
    RunMore(ds, s, c, Read(n));
    RunMore(ds, s, d, Finish);
    RunMore(ds, s, d + [Finish], Done(true));
    assert GoodEnd(n) == d + [Finish] + [Done(true)];
  }

  /** However much has been fed, and however much of it has been sent, a rewrite can end: the file is
      the snapshot and all bytes fed, no child is left, and an AOF that waited for it is on. */
  lemma RewriteEnds<D>(ds: Dataset<D>, s: State<D>)
    requires !s.exited && Handshake(s.rw) && s.rw.child.Some? && s.rw.child.value.stage == Rewriting
    ensures var t := Run(ds, s, GoodEnd(|s.rw.dataPipe|));
            && t.log.file == s.rw.child.value.snapshot + s.rw.child.value.fed && t.rw.child.None? && t.data == s.data
            && t.log.mode == (if s.log.mode == AofWaitRewrite then AofOn else s.log.mode) && !t.exited
            && t.rw.pending == [] && t.rw.scheduled == s.rw.scheduled
  {
    hide *;
    GoodEndRuns(ds, s, |s.rw.dataPipe|);
    HandshakeAsks(ds, s);
    var a := Step(ds, Step(ds, Step(ds, s, Ask), Ack(true)), GetAck);
    ReadsAll(ds, a);
    var b := Step(ds, Step(ds, a, Read(|a.rw.dataPipe|)), Finish);
    RewriteExact(ds, b);
    Switches(ds, b);
  }

  lemma ReadsAll<D>(ds: Dataset<D>, s: State<D>)
    requires !s.exited && Handshake(s.rw) && s.rw.child.Some? && s.rw.child.value.stage == Acked
    ensures var t := Step(ds, Step(ds, s, Read(|s.rw.dataPipe|)), Finish);
            && Handshake(t.rw) && t.rw.child.Some? && t == s.(rw := t.rw) && t.rw.scheduled == s.rw.scheduled
            && t.rw.child.value.stage == ExitedOk && t.rw.child.value.snapshot == s.rw.child.value.snapshot
            && t.rw.child.value.fed == s.rw.child.value.fed
  {
    hide Handshake;
    var n := |s.rw.dataPipe|;
    PipeStepKeeps(s.rw, Read(n));
    PipeStepKeeps(PipeStep(s.rw, Read(n)), Finish);
  }

  lemma HandshakeAsks<D>(ds: Dataset<D>, s: State<D>)
    requires !s.exited && Handshake(s.rw) && s.rw.child.Some? && s.rw.child.value.stage == Rewriting
    ensures var c := s.rw.child.value;
            var t := Step(ds, Step(ds, Step(ds, s, Ask), Ack(true)), GetAck);
            && Handshake(t.rw)
            && t == s.(rw := s.rw.(child := Some(c.(stage := Acked)), stop := true))
  {
    PipeStepKeeps(s.rw, Ask);
    PipeStepKeeps(PipeStep(s.rw, Ask), Ack(true));
  }

  lemma Switches<D>(ds: Dataset<D>, s: State<D>)
    requires s.rw.child.Some? && s.rw.child.value.stage == ExitedOk && !s.exited
    ensures var t := Step(ds, s, Done(true));
            && t == RewriteDone(s, true)
            && t.rw.child.None? && t.rw.pending == [] && t.rw.scheduled == s.rw.scheduled && t.data == s.data
            && t.log.mode == (if s.log.mode == AofWaitRewrite then AofOn else s.log.mode) && !t.exited
  {
  }

  /** While the child rewrites, what has been fed reaches it through the pipe: after writes and reads
      that take all, it has every byte fed since the fork, and the parent none. */
  lemma FedReachesChild<D>(ds: Dataset<D>, s: State<D>)
    requires !s.exited && Handshake(s.rw) && !s.rw.stop && s.rw.child.Some? && s.rw.child.value.stage == Rewriting
    ensures var t := Run(ds, s, [Send(|s.rw.pending|), Read(|s.rw.dataPipe| + |s.rw.pending|)]);
            && t.rw.child.Some? && t.rw.child.value.diff == t.rw.child.value.fed == s.rw.child.value.fed
            && t.rw.pending == [] && t.rw.dataPipe == []
  {
    hide Run, Handshake;
    var n := |s.rw.pending|;
    RunOne(ds, s, Send(n));
    RunMore(ds, s, [Send(n)], Read(|s.rw.dataPipe| + n));
    assert [Send(n)] + [Read(|s.rw.dataPipe| + n)] == [Send(n), Read(|s.rw.dataPipe| + n)];
    PipeStepKeeps(s.rw, Send(n));
    var r := PipeStep(s.rw, Send(n));
    PipeStepKeeps(r, Read(|s.rw.dataPipe| + n));
    NothingOnTheWay(PipeStep(r, Read(|s.rw.dataPipe| + n)));
  }

  lemma NothingOnTheWay(r: Rewrite)
    requires Handshake(r) && r.child.Some? && r.pending == [] && r.dataPipe == []
    ensures r.child.value.diff == r.child.value.fed
  {
    assert r.child.value.diff + [] + [] == r.child.value.diff;
  }

  // ----- an AOF that is being switched on --------------------------------------------------------------------

  /** An AOF that waits for a rewrite has a child that makes one, or one is scheduled. */
  predicate Scheduled<D>(s: State<D>) { s.log.mode == AofWaitRewrite ==> s.rw.child.Some? || s.rw.scheduled }

  lemma ScheduledStays<D>(ds: Dataset<D>, s: State<D>, e: Event)
    requires Scheduled(s)
    ensures Scheduled(Step(ds, s, e))
  {
    hide Load;
  }

  /** In every run, whatever fails in it, */
  lemma {:induction false} ScheduledInEveryRun<D>(ds: Dataset<D>, appendonly: bool, events: seq<Event>)
    ensures Scheduled(Run(ds, Boot(ds, appendonly), events))
    decreases |events|
  {
    hide Step;
    if events != [] {
      var init := events[..|events| - 1];
      ScheduledInEveryRun(ds, appendonly, init);
      ScheduledStays(ds, Run(ds, Boot(ds, appendonly), init), events[|events| - 1]);
    }
  }

  /** and so it becomes on: by the rewrite that has just ended, or when the child that is there has
      come to its end and the server's timer starts the scheduled one. */
  lemma SwitchedOnEnds<D>(ds: Dataset<D>, s: State<D>, snapshot: seq<byte>)
    requires Scheduled(s) && Handshake(s.rw) && s.log.mode == AofWaitRewrite && !s.exited
    ensures var t := Run(ds, s, [Fail, Done(true), RdbDone]);
            t.log.mode == AofOn ||
              var u := Run(ds, t, [Cron(true, snapshot)]);
              && u.rw.child.Some? && u.rw.child.value.snapshot == snapshot
              && var v := Run(ds, u, GoodEnd(0));
              v.log.mode == AofOn && v.log.file == snapshot && v.rw.child.None?
  {
    hide *;
    assert [Fail, Done(true)] == [Fail] + [Done(true)];
    assert [Fail, Done(true), RdbDone] == [Fail, Done(true)] + [RdbDone];
    RunOne(ds, s, Fail);
    RunMore(ds, s, [Fail], Done(true));
    RunMore(ds, s, [Fail, Done(true)], RdbDone);
    ChildEnds(ds, s);
    var t := Run(ds, s, [Fail, Done(true), RdbDone]);
    if t.log.mode != AofOn {
      RunOne(ds, t, Cron(true, snapshot));
      TimerStarts(ds, t, snapshot);
      RewriteEnds(ds, Run(ds, t, [Cron(true, snapshot)]));
      assert snapshot + [] == snapshot;
    }
  }

  /** The child of a waiting AOF ends: either the AOF is on, or a rewrite is scheduled and can start. */
  lemma ChildEnds<D>(ds: Dataset<D>, s: State<D>)
    requires Scheduled(s) && Handshake(s.rw) && s.log.mode == AofWaitRewrite && !s.exited
    ensures var t := Step(ds, Step(ds, Step(ds, s, Fail), Done(true)), RdbDone);
            t.log.mode == AofOn ||
              (&& t.log.mode == AofWaitRewrite && !t.exited && t.rw.child.None? && t.rw.scheduled && !t.rw.rdbChild
               && t.rw.pending == [])
  {
    FailedChild(ds, s);
    hide Step, Handshake;
    var a := Step(ds, s, Fail);
    if a.rw.child.Some? { DoneClears(ds, a); }
    DoneWithout(ds, Step(ds, a, Done(true)));
  }

  lemma FailedChild<D>(ds: Dataset<D>, s: State<D>)
    requires Handshake(s.rw) && !s.exited
    ensures var t := Step(ds, s, Fail);
            && t == s.(rw := t.rw) && t.rw.scheduled == s.rw.scheduled
            && (s.rw.child.None? ==> t == s && Step(ds, t, Done(true)) == t && t.rw.pending == [])
            && (s.rw.child.Some? ==> t.rw.child.Some? && t.rw.child.value.stage in {ExitedOk, ExitedErr})
  {
  }

  lemma DoneClears<D>(ds: Dataset<D>, s: State<D>)
    requires s.log.mode == AofWaitRewrite && !s.exited && s.rw.child.Some?
    requires s.rw.child.value.stage in {ExitedOk, ExitedErr}
    ensures var t := Step(ds, s, Done(true));
            && !t.exited && t.rw.child.None? && t.rw.pending == []
            && (t.log.mode == AofOn || (t.log.mode == AofWaitRewrite && t.rw.scheduled))
  {
  }

  lemma DoneWithout<D>(ds: Dataset<D>, s: State<D>)
    requires !s.exited
    ensures Step(ds, s, RdbDone) == s.(rw := s.rw.(rdbChild := false))
  {
  }

  lemma TimerStarts<D>(ds: Dataset<D>, t: State<D>, snapshot: seq<byte>)
    requires t.log.mode == AofWaitRewrite && !t.exited && t.rw.child.None? && t.rw.scheduled && !t.rw.rdbChild
    requires t.rw.pending == []
    ensures var u := Step(ds, t, Cron(true, snapshot));
            && u.rw.child == Some(Child(Rewriting, snapshot, [], snapshot, [])) && !u.exited && u.rw.dataPipe == []
            && u.log.mode == AofWaitRewrite && Handshake(u.rw)
  {
    ForkShakes(t.rw, snapshot);
  }

  lemma ForkShakes(r: Rewrite, snapshot: seq<byte>)
    requires r.child.None? && !r.rdbChild && r.pending == []
    ensures Handshake(NewChild(r, snapshot))
  {
  }
}
