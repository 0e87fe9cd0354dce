/** The code of aof.c that the steps of AofRun stand for: the server's fields, updated
    in place. Results of system calls are parameters. Each method is proved to take
    the step of AofRun it is named after. */
module AofServer {
  import opened Bytes
  import opened AofFormat
  import opened AofLoader
  import opened AofRun
  import opened Options

  /** AOF_RW_BUF_BLOCK_SIZE */
  const BLOCK_SIZE: nat := 1024 * 1024 * 10

  /** What one write call out of len bytes reports: -1 on any error. */
  function Reported(len: nat, r: WriteResult): (n: int)
    ensures -1 <= n <= len
  {
    match r
    case Wrote(k) => if k <= len then k else len
    case Interrupted => -1
    case WriteFailed => -1
  }

  /** How many bytes of the blocks go out: each write is offered what is left of the first
      block with bytes, and the first that takes none, or fails, is the last. */
  function Sends(blocks: seq<seq<byte>>, results: seq<WriteResult>): (n: nat)
    ensures n <= |Flat(blocks)|
    decreases |results|, |blocks|
  {
    if blocks == [] then 0 else
    if blocks[0] == [] then Sends(blocks[1..], results) else
    if results == [] then 0 else
    var n := Reported(|blocks[0]|, results[0]);
    if n <= 0 then 0 else
    SendsLeft(blocks, n);
    n + Sends(blocks[0 := blocks[0][n..]], results[1..])
  }

  lemma SendsLeft(blocks: seq<seq<byte>>, n: nat)
    requires blocks != [] && n <= |blocks[0]|
    ensures n + |Flat(blocks[0 := blocks[0][n..]])| == |Flat(blocks)|
  {
    assert blocks[0 := blocks[0][n..]][1..] == blocks[1..];
  }

  lemma SendsNext(blocks: seq<seq<byte>>, results: seq<WriteResult>, i: nat)
    requires blocks != [] && blocks[0] != [] && i < |results|
    ensures var n := Reported(|blocks[0]|, results[i]);
            Sends(blocks, results[i..]) == if n <= 0 then 0
                else n + Sends(blocks[0 := blocks[0][n..]], results[i + 1..])
  {
    assert results[i..][1..] == results[i + 1..];
  }

  /** Of what went out before and goes out yet, `total` is the sum: the loop is at these blocks and
      the i-th result, with `sent` bytes of `all` written. */
  ghost predicate Sending(all: seq<byte>, total: nat, sent: nat, blocks: seq<seq<byte>>, results: seq<WriteResult>,
                          i: nat)
  {
    && i <= |results| && sent <= |all| && Flat(blocks) == all[sent..]
    && total == sent + Sends(blocks, results[i..])
  }

  lemma SendingStarts(blocks: seq<seq<byte>>, results: seq<WriteResult>)
    ensures Sending(Flat(blocks), Sends(blocks, results), 0, blocks, results, 0)
  {
    assert results[0..] == results && Flat(blocks)[0..] == Flat(blocks);
  }

  /** One write. */
  lemma SendingOne(all: seq<byte>, total: nat, sent: nat, blocks: seq<seq<byte>>, results: seq<WriteResult>, i: nat,
                   pipe: seq<byte>)
    requires Sending(all, total, sent, blocks, results, i) && blocks != [] && blocks[0] != [] && i < |results|
    ensures var n := Reported(|blocks[0]|, results[i]);
            if n <= 0 then total == sent
            else
              && sent + n <= |all| && Sending(all, total, sent + n, blocks[0 := blocks[0][n..]], results, i + 1)
              && pipe + all[..sent] + blocks[0][..n] == pipe + all[..sent + n]
  {
    hide Flat, Sends;
    SendsNext(blocks, results, i);
    var n := Reported(|blocks[0]|, results[i]);
    if n > 0 { SendStep(all, sent, blocks, n, pipe); }
  }

  /** A block without bytes, and the end. */
  lemma SendingOn(all: seq<byte>, total: nat, sent: nat, blocks: seq<seq<byte>>, results: seq<WriteResult>, i: nat)
    requires Sending(all, total, sent, blocks, results, i)
    ensures blocks == [] || (blocks[0] != [] && i == |results|) ==> total == sent
    ensures blocks != [] && blocks[0] == [] ==> Sending(all, total, sent, blocks[1..], results, i)
    ensures sent <= |all| && Flat(blocks) == all[sent..]
  {
    if blocks != [] { assert Flat(blocks) == blocks[0] + Flat(blocks[1..]); }
    if i == |results| { assert results[i..] == []; }
  }

  /** A pipe that takes at least a byte each time takes all, after enough writes. */
  lemma {:induction false} SendsAll(blocks: seq<seq<byte>>, results: seq<WriteResult>)
    requires forall i :: 0 <= i < |results| ==> results[i].Wrote? && results[i].n > 0
    requires |results| >= |Flat(blocks)|
    ensures Sends(blocks, results) == |Flat(blocks)|
    decreases |results|, |blocks|
  {
    if blocks != [] {
      if blocks[0] == [] {
        SendsAll(blocks[1..], results);
      } else {
        var n := Reported(|blocks[0]|, results[0]);
        SendsLeft(blocks, n);
        SendsAll(blocks[0 := blocks[0][n..]], results[1..]);
      }
    }
  }

  /** Whether the write of block i, if it has any bytes, is reported complete. */
  predicate WrittenInFull(block: seq<byte>, i: nat, results: seq<WriteResult>)
  {
    block == [] || (i < |results| && Reported(|block|, results[i]) == |block|)
  }

  /** catAppendOnlyExpireAtCommand */
  method CatAppendOnlyExpireAtCommand(dst: seq<byte>, seconds: bool, relative: bool, key: seq<byte>, arg: seq<byte>,
                                      now: int)
    returns (r: seq<byte>)
    ensures r == dst + PrintAll([PexpireAt(key, When(seconds, relative, arg, now))])
  {
    var when := Strtol(arg);
    if seconds {
      when := when * 1000;
    }
    if relative {
      when := when + now;
    }
    r := CatAppendOnlyGenericCommand(dst, [Ascii("PEXPIREAT"), key, Decimal(when)]);
    PrintOne([Ascii("PEXPIREAT"), key, Decimal(when)]);
  }

  /** The scan of the SET options: the last "ex" and the last "px" win. */
  method ScanSetOptions(argv: Argv) returns (ex: Option<seq<byte>>, px: Option<seq<byte>>)
    requires |argv| > 3
    ensures ex == OptionValue(argv, "ex", |argv|) && px == OptionValue(argv, "px", |argv|)
  {
    ex, px := None, None;
    var i := 3;
    while i < |argv|
      invariant 3 <= i <= |argv|
      invariant ex == OptionValue(argv, "ex", i) && px == OptionValue(argv, "px", i)
    {
      if IsOption(argv[i], "ex") && i + 1 < |argv| {
        ex := Some(argv[i + 1]);
      }
      if IsOption(argv[i], "px") && i + 1 < |argv| {
        px := Some(argv[i + 1]);
      }
      i := i + 1;
    }
  }

  /** The branches of feedAppendOnlyFile that pick what a command is logged as. */
  method TranslateCommand(dst: seq<byte>, argv: Argv, now: int) returns (r: seq<byte>)
    ensures r == dst + PrintAll(Translate(argv, now))
  {
    hide PrintAll, PrintCommand, IsNamed, PexpireAt, When, OptionValue;
    r := dst;
    if |argv| >= 3 && IsNamed(argv, "expire") {
      r := CatAppendOnlyExpireAtCommand(r, true, true, argv[1], argv[2], now);
    } else if |argv| >= 3 && IsNamed(argv, "pexpire") {
      r := CatAppendOnlyExpireAtCommand(r, false, true, argv[1], argv[2], now);
    } else if |argv| >= 3 && IsNamed(argv, "expireat") {
      r := CatAppendOnlyExpireAtCommand(r, true, false, argv[1], argv[2], now);
    } else if |argv| >= 4 && (IsNamed(argv, "setex") || IsNamed(argv, "psetex")) {
      var seconds := IsNamed(argv, "setex");
      var plain := [Ascii("SET"), argv[1], argv[3]];
      r := CatAppendOnlyGenericCommand(r, plain);
      r := CatAppendOnlyExpireAtCommand(r, seconds, true, argv[1], argv[2], now);
      ghost var at := PexpireAt(argv[1], When(seconds, true, argv[2], now));
      PrintTwo(dst, plain, [at]);
      assert [plain] + [at] == [plain, at];
    } else if |argv| > 3 && IsNamed(argv, "set") {
      r := TranslateSet(r, argv, now);
    } else {
      r := CatAppendOnlyGenericCommand(r, argv);
      PrintOne(argv);
    }
  }

  method TranslateSet(dst: seq<byte>, argv: Argv, now: int) returns (r: seq<byte>)
    requires |argv| > 3
    ensures r == dst + PrintAll([argv[..3]] + ExpireOf(argv[1], true, OptionValue(argv, "ex", |argv|), now)
                                            + ExpireOf(argv[1], false, OptionValue(argv, "px", |argv|), now))
  {
    hide PrintAll, PrintCommand, PexpireAt, When, OptionValue;
    r := CatAppendOnlyGenericCommand(dst, argv[..3]);
    var ex, px := ScanSetOptions(argv);
    PrintThree(dst, argv[..3], ExpireOf(argv[1], true, ex, now), ExpireOf(argv[1], false, px, now));
    PrintNone(r);
    if ex.Some? {
      r := CatAppendOnlyExpireAtCommand(r, true, true, argv[1], ex.value, now);
    }
    PrintNone(r);
    if px.Some? {
      r := CatAppendOnlyExpireAtCommand(r, false, true, argv[1], px.value, now);
    }
  }

  /** The SELECT, if the command ran on another database, and the translated command. */
  method BytesToFeed(sel: int, db: nat, argv: Argv, now: int) returns (bytes: seq<byte>)
    ensures bytes == FeedBytes(sel, db, argv, now)
    ensures bytes == (if db == sel then [] else PrintCommand([Ascii("SELECT"), Digits(db)]))
                     + PrintAll(Translate(argv, now))
  {
    hide PrintAll, PrintCommand, Translate;
    bytes := [];
    PrintNone(bytes);
    if db != sel {
      bytes := CatAppendOnlyGenericCommand(bytes, [Ascii("SELECT"), Digits(db)]);
      PrintOne(SelectCommand(db));
    }
    assert bytes == PrintAll(if db != sel then [SelectCommand(db)] else []);
    bytes := TranslateCommand(bytes, argv, now);
    PrintAllAppend(if db != sel then [SelectCommand(db)] else [], Translate(argv, now));
  }

  // ----- the log -------------------------------------------------------------------------

  class AofLog {
    var mode: Mode
    var open: bool
    var file: seq<byte>
    var size: nat
    var buf: seq<byte>
    var sel: int
    var writeOk: bool
    var postponed: int

    ghost function View(): Log
      reads this
    {
      Log(mode, open, file, size, buf, sel, writeOk, postponed)
    }

    constructor (appendonly: bool)
      ensures View() == Log(if appendonly then AofOn else AofOff, appendonly, [], 0, [], -1, true, 0)
    {
      mode, open := if appendonly then AofOn else AofOff, appendonly;
      file, size, buf := [], 0, [];
      sel, writeOk, postponed := -1, true, 0;
    }

    /** aofWrite: n bytes of what was to be written reached the file. */
    method AofWrite(bytes: seq<byte>, results: seq<WriteResult>) returns (n: nat)
      modifies this`file
      ensures n == WriteTotal(|bytes|, results)
      ensures file == old(file) + bytes[..n]
    {
      n := 0;
      var i := 0;
      assert results[0..] == results;
      while n < |bytes| && i < |results|
        invariant n <= |bytes| && i <= |results|
        invariant file == old(file) + bytes[..n]
        invariant WriteTotal(|bytes|, results) == n + WriteTotal(|bytes| - n, results[i..])
        decreases |results| - i
      {
        var len := |bytes| - n;
        var nwritten := Reported(len, results[i]);
        if nwritten < 0 {
          if results[i] == Interrupted {
            i := i + 1;
            continue;
          }
          return;
        }
        assert bytes[..n] + bytes[n..n + nwritten] == bytes[..n + nwritten];
        file := file + bytes[n..n + nwritten];
        n := n + nwritten;
        i := i + 1;
      }
    }

    /** The write of flushAppendOnlyFile and what it does about a short one. */
    method WriteBuffer(fsync: Fsync, results: seq<WriteResult>, truncOk: bool) returns (dies: bool)
      requires |buf| > 0
      modifies this`postponed, this`file, this`size, this`buf, this`writeOk
      ensures var k := if open then WriteTotal(|old(buf)|, results) else 0;
              && dies == (fsync == FsyncAlways && k < |old(buf)|)
              && View() == if dies then DieOut(old(View()), k, truncOk) else WriteOut(old(View()), k, truncOk)
    {
      hide WriteTotal, Truncate;
      var nwritten: int := 0;
      if open {
        nwritten := AofWrite(buf, results);
      }
      assert buf[..0] == [] && buf[..|buf|] == buf && buf[0..] == buf;
      if nwritten == 0 {
        nwritten := -1;
      }
      postponed := 0;
      if nwritten != |buf| {
        if nwritten > 0 && truncOk {
          file := Truncate(file, size);
          nwritten := -1;
        }
        if fsync == FsyncAlways {
          return true;
        }
        writeOk := false;
        if nwritten > 0 {
          size := size + nwritten;
          buf := buf[nwritten..];
        }
        return false;
      }
      writeOk := true;
      size := size + nwritten;
      buf := [];
      dies := false;
    }

    /** flushAppendOnlyFile, up to the fsync; `dies` stands for exit(1). */
    method FlushAppendOnlyFile(fsync: Fsync, force: bool, syncing: bool, unixtime: int, results: seq<WriteResult>,
                               truncOk: bool)
      returns (dies: bool)
      modifies this`postponed, this`file, this`size, this`buf, this`writeOk
      ensures var n := WriteTotal(|old(buf)|, results);
              && dies == FlushDies(old(View()), fsync, force, syncing, unixtime, n)
              && View() == FlushLog(old(View()), fsync, force, syncing, unixtime, n, truncOk)
      ensures open && WriteTotal(|old(buf)|, results) == |old(buf)| &&
                (fsync != FsyncEverysec || force || !syncing ||
                 (old(postponed) != 0 && unixtime - old(postponed) >= 2)) ==>
                !dies && file == old(file) + old(buf) && buf == []
      ensures fsync == FsyncAlways && !dies ==> file == old(file) + old(buf) && buf == []
    {
      hide WriteTotal, WriteOut, DieOut;
      AllOut(View(), fsync, force, syncing, unixtime, WriteTotal(|buf|, results), truncOk);
      dies := false;
      if |buf| == 0 {
        return;
      }
      if fsync == FsyncEverysec && !force && syncing {
        if postponed == 0 {
          postponed := unixtime;
          return;
        } else if unixtime - postponed < 2 {
          return;
        }
      }
      dies := WriteBuffer(fsync, results, truncOk);
    }

    /** After the rename: the descriptor, the size and the buffer follow the new file. */
    method SwitchFile(newfile: seq<byte>)
      modifies this`file, this`sel, this`size, this`buf, this`mode
      ensures View() == SwitchLog(old(View()), newfile)
    {
      file := newfile;
      if open {
        sel := -1;
        size := |file|;
        buf := [];
      }
      if mode == AofWaitRewrite {
        mode := AofOn;
      }
    }

  }

  // ----- the rewrite -----------------------------------------------------------------------

  class AofRewrite {
    var hasChild: bool
    var rdbChild: bool
    var stop: bool
    var blocks: seq<seq<byte>>
    var dataPipe: seq<byte>
    var askPipe: seq<byte>
    var ackPipe: seq<byte>
    var scheduled: bool

    // the child process
    var stage: Stage
    var temp: seq<byte>
    var diff: seq<byte>
    ghost var snapshot: seq<byte>
    ghost var fed: seq<byte>

    ghost predicate Valid()
      reads this
    {
      forall i :: 0 <= i < |blocks| ==> |blocks[i]| <= BLOCK_SIZE
    }

    ghost function View(): Rewrite
      reads this
    {
      Rewrite(if hasChild then Some(Child(stage, temp, diff, snapshot, fed)) else None,
              rdbChild, stop, Flat(blocks), dataPipe, askPipe, ackPipe, scheduled)
    }

    constructor ()
      ensures Valid() && View() == NoRewrite()
    {
      hasChild, rdbChild, stop := false, false, false;
      blocks, dataPipe, askPipe, ackPipe := [], [], [], [];
      scheduled := false;
      stage, temp, diff := Rewriting, [], [];
      snapshot, fed := [], [];
    }

    /** The piece of the data that still fits in the last block goes there. */
    method FillLastBlock(s: seq<byte>) returns (n: nat)
      requires Valid() && blocks != []
      modifies this`blocks
      ensures Valid() && blocks != [] && n <= |s|
      ensures Flat(blocks) == old(Flat(blocks)) + s[..n]
      ensures n < |s| ==> |blocks[|blocks| - 1]| == BLOCK_SIZE
      ensures n == 0 ==> blocks == old(blocks)
    {
      var last := |blocks| - 1;
      var free := BLOCK_SIZE - |blocks[last]|;
      n := if free < |s| then free else |s|;
      if n > 0 {
        FlatLast(blocks, s[..n]);
        blocks := blocks[last := blocks[last] + s[..n]];
      }
    }

    /** aofRewriteBufferAppend: fill the last block, then allocate blocks as needed. */
    method AofRewriteBufferAppend(bytes: seq<byte>)
      requires Valid()
      modifies this`blocks
      ensures Valid() && Flat(blocks) == old(Flat(blocks)) + bytes
    {
      hide Flat;
      var s := bytes;
      ghost var done: seq<byte> := [];
      while |s| > 0
        invariant Valid()
        invariant done + s == bytes && Flat(blocks) == old(Flat(blocks)) + done
        decreases |s|, if blocks != [] && |blocks[|blocks| - 1]| < BLOCK_SIZE then 0 else 1
      {
        if blocks != [] {
          var n := FillLastBlock(s);
          assert done + s == (done + s[..n]) + s[n..];
          assert old(Flat(blocks)) + done + s[..n] == old(Flat(blocks)) + (done + s[..n]);
          done := done + s[..n];
          s := s[n..];
        }
        if |s| > 0 {
          FlatEmptyLast(blocks);
          blocks := blocks + [[]];
        }
      }
      assert done == bytes;
    }

    /** The rewrite part of feedAppendOnlyFile. */
    method Feed(bytes: seq<byte>)
      requires Valid()
      modifies this`blocks, this`fed
      ensures Valid() && View() == FeedRewrite(old(View()), bytes)
    {
      hide Flat;
      if hasChild {
        AofRewriteBufferAppend(bytes);
        fed := fed + bytes;
      }
    }

    /** killAppendOnlyChild */
    method KillAppendOnlyChild()
      requires Valid()
      modifies this`blocks, this`hasChild, this`dataPipe, this`askPipe, this`ackPipe
      ensures Valid() && View() == KillChild(old(View()))
      ensures !hasChild && (old(hasChild) ==> blocks == [] && dataPipe == [] && askPipe == [] && ackPipe == [])
    {
      hide Flat;
      if !hasChild {
        return;
      }
      blocks := [];
      FlatNothing();
      hasChild := false;
      dataPipe, askPipe, ackPipe := [], [], [];
    }

    /** aofCreatePipes */
    method AofCreatePipes()
      modifies this`dataPipe, this`askPipe, this`ackPipe, this`stop
      ensures dataPipe == [] && askPipe == [] && ackPipe == [] && !stop
    {
      dataPipe, askPipe, ackPipe := [], [], [];
      stop := false;
    }

    /** The pipes, fork(), and the parent's branch; the child writes `bytes` first. */
    method StartChild(bytes: seq<byte>)
      requires Valid() && !hasChild
      modifies this`dataPipe, this`askPipe, this`ackPipe, this`stop, this`stage, this`temp, this`diff,
               this`snapshot, this`fed, this`hasChild, this`scheduled
      ensures Valid() && View() == NewChild(old(View()), bytes)
    {
      hide Flat;
      AofCreatePipes();
      stage, temp, diff := Rewriting, bytes, [];
      snapshot, fed := bytes, [];
      hasChild := true;
      scheduled := false;
    }

    /** aofChildWriteDiffData: the pipe takes what it takes, block by block. */
    method AofChildWriteDiffData(results: seq<WriteResult>) returns (sent: nat)
      requires Valid() && hasChild
      modifies this`blocks, this`dataPipe
      ensures Valid() && sent == if stop then 0 else Sends(old(blocks), results)
      ensures sent <= |old(Flat(blocks))| && View() == SendDiff(old(View()), sent)
    {
      hide Flat, Sends, Sending;
      sent := 0;
      var i := 0;
      ghost var all, total := Flat(blocks), Sends(blocks, results);
      SendingStarts(blocks, results);
      assert dataPipe + all[..0] == dataPipe;
      while true
        invariant Valid() && sent <= |all| && i <= |results|
        invariant dataPipe == old(dataPipe) + all[..sent] && (stop ==> sent == 0)
        invariant Sending(all, total, sent, blocks, results, i)
        decreases |results| - i, |blocks|
      {
        SendingOn(all, total, sent, blocks, results, i);
        if stop || blocks == [] {
          return;
        }
        var block := blocks[0];
        if |block| > 0 {
          if i == |results| {
            return;
          }
          var nwritten := Reported(|block|, results[i]);
          SendingOne(all, total, sent, blocks, results, i, old(dataPipe));
          i := i + 1;
          if nwritten <= 0 {
            return;
          }
          dataPipe := dataPipe + block[..nwritten];
          block := block[nwritten..];
          blocks := blocks[0 := block];
          sent := sent + nwritten;
        }
        if |block| == 0 {
          SendingOn(all, total, sent, blocks, results, i);
          blocks := blocks[1..];
        }
      }
    }

    /** aofChildPipeReadable */
    method AofChildPipeReadable(ackOk: bool)
      requires Valid() && hasChild
      modifies this`askPipe, this`stop, this`ackPipe
      ensures Valid() && View() == ParentAck(old(View()), ackOk)
      ensures old(askPipe) != [] && old(askPipe)[0] == BANG ==>
                stop && askPipe == old(askPipe)[1..] && ackPipe == old(ackPipe) + if ackOk then [BANG] else []
    {
      if askPipe != [] {
        var b := askPipe[0];
        askPipe := askPipe[1..];
        if b == BANG {
          stop := true;
          if ackOk {
            ackPipe := ackPipe + [BANG];
          }
        }
      }
    }

    /** aofRewriteBufferWrite: one write per block, and every one must be full. */
    method AofRewriteBufferWrite(dst: seq<byte>, results: seq<WriteResult>) returns (written: seq<byte>, ok: bool)
      requires Valid()
      ensures ok ==> written == dst + Flat(blocks)
      ensures ok <==> forall i :: 0 <= i < |blocks| ==> WrittenInFull(blocks[i], i, results)
    {
      written := dst;
      var i := 0;
      assert blocks[..0] == [];
      while i < |blocks|
        invariant i <= |blocks|
        invariant written == dst + Flat(blocks[..i])
        invariant forall j :: 0 <= j < i ==> WrittenInFull(blocks[j], j, results)
      {
        if |blocks[i]| > 0 {
          if i >= |results| {
            return written, false;
          }
          var nwritten := Reported(|blocks[i]|, results[i]);
          if nwritten != |blocks[i]| {
            return written, false;
          }
        }
        FlatOneMore(blocks, i);
        written := written + blocks[i];
        i := i + 1;
      }
      assert blocks[..i] == blocks;
      ok := true;
    }

    /** The cleanup label of backgroundRewriteDoneHandler. */
    method CleanupRewrite(waiting: bool)
      modifies this`blocks, this`dataPipe, this`askPipe, this`ackPipe, this`hasChild, this`scheduled
      ensures Valid() && View() == Cleanup(old(View()), waiting)
      ensures !hasChild && blocks == [] && (waiting ==> scheduled)
    {
      hide Flat;
      blocks := [];
      FlatNothing();
      dataPipe, askPipe, ackPipe := [], [], [];
      hasChild := false;
      if waiting {
        scheduled := true;
      }
    }

    // ----- the rewrite, child side ------------------------------------------------------------

    /** aofReadDiffFromParent: reads of at most 64 KB until the pipe is empty. */
    method AofReadDiffFromParent() returns (total: nat)
      requires Valid() && hasChild && (stage == Rewriting || stage == Acked)
      modifies this`diff, this`dataPipe
      ensures Valid() && total == |old(dataPipe)| && dataPipe == [] && diff == old(diff) + old(dataPipe)
      ensures View() == ChildRead(old(View()), total)
    {
      total := 0;
      ghost var all := dataPipe;
      assert diff + all[..0] == diff;
      while |dataPipe| > 0
        invariant total <= |all| && dataPipe == all[total..] && diff == old(diff) + all[..total]
        decreases |dataPipe|
      {
        var nread := if |dataPipe| < 65536 then |dataPipe| else 65536;
        assert all[..total] + all[total..][..nread] == all[..total + nread];
        diff := diff + dataPipe[..nread];
        dataPipe := dataPipe[nread..];
        total := total + nread;
      }
      assert all[..total] == all;
    }

    /** rewriteAppendOnlyFile after the snapshot: ask the parent to stop. */
    method ChildAskToStop()
      requires Valid() && hasChild && stage == Rewriting
      modifies this`askPipe, this`stage
      ensures Valid() && View() == ChildAsk(old(View()))
    {
      askPipe := askPipe + [BANG];
      stage := Asked;
    }

    /** The end of rewriteAppendOnlyFile: the acknowledgement, the final read, the write. */
    method ChildFinalize() returns (total: nat)
      requires Valid() && hasChild && stage == Asked && ackPipe != []
      modifies this`ackPipe, this`stage, this`diff, this`dataPipe, this`temp
      ensures Valid()
      ensures if old(ackPipe)[0] == BANG then stage == ExitedOk && total == |old(dataPipe)| && dataPipe == []
              else stage == ExitedErr
      ensures stage == ExitedOk ==> temp == old(temp) + (old(diff) + old(dataPipe))
      ensures var acked := ChildGetAck(old(View()));
              View() == if acked.child.value.stage == Acked then ChildFinish(ChildRead(acked, total)) else acked
    {
      hide Flat;
      total := 0;
      var b := ackPipe[0];
      ackPipe := ackPipe[1..];
      if b != BANG {
        stage := ExitedErr;
        return;
      }
      stage := Acked;
      total := AofReadDiffFromParent();
      temp := temp + diff;
      stage := ExitedOk;
    }
  }

  // ----- the server -------------------------------------------------------------------------

  /** A queued command: one on the data, or one that rewrites the log or switches it on or off.
      `mayWrite`: it is neither read-only nor administrative; `dirty`: it is propagated. */
  datatype Queued =
    | Data(db: nat, argv: Argv, now: int, mayWrite: bool, dirty: bool)
    | Bgrewriteaof(forkOk: bool, snapshot: seq<byte>)
    | AppendonlyYes(openOk: bool, forkOk: bool, snapshot: seq<byte>)
    | AppendonlyNo(syncing: bool, unixtime: int, results: seq<WriteResult>, truncOk: bool)

  predicate MayWrite(q: Queued) { q.Data? && q.mayWrite }

  /** What a queued command does, as events of a run. */
  function QueuedEvents<D>(s: State<D>, fsync: Fsync, q: Queued): seq<Event>
  {
    match q
    case Data(db, argv, now, _, dirty) => if dirty then [Event.Command(db, argv, now)] else []
    case Bgrewriteaof(forkOk, snapshot) =>
      if s.rw.child.Some? then []
      else if s.rw.rdbChild then [Schedule]
      else if forkOk then [ForkEvent(snapshot)] else []
    case AppendonlyYes(openOk, forkOk, snapshot) =>
      if s.log.mode == AofOff then [TurnOn(openOk, forkOk, snapshot)] else []
    case AppendonlyNo(syncing, unixtime, results, truncOk) =>
      if s.log.mode == AofOff then []
      else [FlushEvent(fsync, true, syncing, unixtime, WriteTotal(|s.log.buf|, results), truncOk), TurnOff]
  }

  /** What execCommand does, from the first of these commands on; `fed`: MULTI was propagated. */
  function ExecEvents<D>(ds: Dataset<D>, fsync: Fsync, s: State<D>, fed: bool, commands: seq<Queued>, dbEnd: nat,
                         now: int): seq<Event>
    decreases |commands|
  {
    if commands == [] then (if fed then [ExecFed(dbEnd, now)] else []) else
    var q := commands[0];
    var multi := if !fed && MayWrite(q) then [MultiFed(q.db, q.now)] else [];
    var events := multi + QueuedEvents(Run(ds, s, multi), fsync, q);
    events + ExecEvents(ds, fsync, Run(ds, s, events), fed || MayWrite(q), commands[1..], dbEnd, now)
  }

  lemma {:induction false} NextQueued<D>(ds: Dataset<D>, fsync: Fsync, s: State<D>, fed: bool, commands: seq<Queued>,
                                         j: nat, dbEnd: nat, now: int)
    requires j < |commands|
    ensures var q := commands[j];
            var t := if !fed && MayWrite(q) then Run(ds, s, [MultiFed(q.db, q.now)]) else s;
            var u := Run(ds, t, QueuedEvents(t, fsync, q));
            Run(ds, s, ExecEvents(ds, fsync, s, fed, commands[j..], dbEnd, now))
            == Run(ds, u, ExecEvents(ds, fsync, u, fed || MayWrite(q), commands[j + 1..], dbEnd, now))
  {
    hide Step, QueuedEvents;
    var q, rest := commands[j], commands[j + 1..];
    assert commands[j..][1..] == rest;
    var multi := if !fed && MayWrite(q) then [MultiFed(q.db, q.now)] else [];
    var t := Run(ds, s, multi);
    var own := QueuedEvents(t, fsync, q);
    RunAppend(ds, s, multi, own);
    var u := Run(ds, t, own);
    RunAppend(ds, s, multi + own, ExecEvents(ds, fsync, u, fed || MayWrite(q), rest, dbEnd, now));
  }

  lemma LastEvents<D>(ds: Dataset<D>, fsync: Fsync, s: State<D>, fed: bool, dbEnd: nat, now: int)
    ensures Run(ds, s, ExecEvents(ds, fsync, s, fed, [], dbEnd, now)) ==
            if fed then Run(ds, s, [ExecFed(dbEnd, now)]) else s
  {
    hide Step;
  }

  predicate Crashless(events: seq<Event>) { forall e :: e in events ==> !e.Crash? }

  /** A server that has exited does nothing more. */
  lemma {:induction false} NothingAfterExit<D>(ds: Dataset<D>, fsync: Fsync, s: State<D>, fed: bool,
                                               commands: seq<Queued>, dbEnd: nat, now: int)
    requires s.exited
    ensures Run(ds, s, ExecEvents(ds, fsync, s, fed, commands, dbEnd, now)) == s
  {
    hide Run, ExecEvents, Crashless;
    NoCrash(ds, fsync, s, fed, commands, dbEnd, now);
    StaysExited(ds, s, ExecEvents(ds, fsync, s, fed, commands, dbEnd, now));
  }

  lemma {:induction false} NoCrash<D>(ds: Dataset<D>, fsync: Fsync, s: State<D>, fed: bool, commands: seq<Queued>,
                                      dbEnd: nat, now: int)
    ensures Crashless(ExecEvents(ds, fsync, s, fed, commands, dbEnd, now))
    decreases |commands|
  {
    hide Run;
    if commands != [] {
      var q := commands[0];
      var multi := if !fed && MayWrite(q) then [MultiFed(q.db, q.now)] else [];
      var events := multi + QueuedEvents(Run(ds, s, multi), fsync, q);
      assert Crashless(events);
      NoCrash(ds, fsync, Run(ds, s, events), fed || MayWrite(q), commands[1..], dbEnd, now);
    }
  }

  lemma {:induction false} StaysExited<D>(ds: Dataset<D>, s: State<D>, events: seq<Event>)
    requires s.exited && Crashless(events)
    ensures Run(ds, s, events) == s
    decreases |events|
  {
    if events != [] { StaysExited(ds, s, events[..|events| - 1]); }
  }

  lemma {:induction false} StopIsRun<D>(ds: Dataset<D>, s: State<D>, fsync: Fsync, syncing: bool, unixtime: int, n: nat,
                                        truncOk: bool)
    requires !s.exited && s.log.mode != AofOff && n <= |s.log.buf|
    ensures var flushed := Flush(s, fsync, true, syncing, unixtime, n, truncOk);
            Run(ds, s, [FlushEvent(fsync, true, syncing, unixtime, n, truncOk), TurnOff])
            == if flushed.exited then flushed else StopAppendOnly(flushed)
  {
    hide Flush, StopAppendOnly;
    var a := FlushEvent(fsync, true, syncing, unixtime, n, truncOk);
    assert [a, TurnOff] == [a] + [TurnOff];
    RunAppend(ds, s, [a], [TurnOff]);
    RunOne(ds, s, a);
    RunOne(ds, Step(ds, s, a), TurnOff);
  }

  // ----- what a transaction does, in terms of its commands -----------------------------------

  /** A command as it is fed to the log. */
  datatype Entry = Entry(db: nat, argv: Argv, now: int)

  function Selected(sel: int, es: seq<Entry>): int { if es == [] then sel else es[|es| - 1].db }

  /** What is logged of these, one after the other. */
  function EntriesLog(sel: int, es: seq<Entry>): seq<Argv>
  {
    if es == [] then [] else
    var init, e := es[..|es| - 1], es[|es| - 1];
    EntriesLog(sel, init) + FeedCommands(Selected(sel, init), e.db, e.argv, e.now)
  }

  /** What the dataset becomes when these run, one after the other. */
  function LiveAll<D>(ds: Dataset<D>, data: D, es: seq<Entry>): D
  {
    if es == [] then data else
    var init, e := es[..|es| - 1], es[|es| - 1];
    ds.live(LiveAll(ds, data, init), e.db, e.argv, e.now)
  }

  predicate AllData(commands: seq<Queued>) { forall q :: q in commands ==> q.Data? }

  /** The commands that changed something, in order. */
  function Dirty(commands: seq<Queued>): seq<Entry>
    requires AllData(commands)
  {
    if commands == [] then [] else
    var init, q := commands[..|commands| - 1], commands[|commands| - 1];
    Dirty(init) + if q.dirty then [Entry(q.db, q.argv, q.now)] else []
  }

  /** The place of the first command that may write; their number if there is none. */
  function FirstWrite(commands: seq<Queued>): (p: nat)
    ensures p <= |commands| && (forall j :: 0 <= j < p ==> !MayWrite(commands[j]))
    ensures p < |commands| ==> MayWrite(commands[p])
  {
    if commands == [] || MayWrite(commands[0]) then 0 else 1 + FirstWrite(commands[1..])
  }

  predicate Writes(commands: seq<Queued>) { FirstWrite(commands) < |commands| }

  /** What is fed for these: before the first that may write stands MULTI, unless it has been fed. */
  function Begun(fed: bool, commands: seq<Queued>): seq<Entry>
    requires AllData(commands)
  {
    var p := FirstWrite(commands);
    if fed || p == |commands| then Dirty(commands)
    else Dirty(commands[..p]) + [Entry(commands[p].db, MULTI, commands[p].now)] + Dirty(commands[p..])
  }

  /** And in the end EXEC, if MULTI has been fed. */
  function Transaction(fed: bool, commands: seq<Queued>, dbEnd: nat, now: int): seq<Entry>
    requires AllData(commands)
  {
    Begun(fed, commands) + if fed || Writes(commands) then [Entry(dbEnd, EXEC, now)] else []
  }

  /** These are fed, to log and child, unless the AOF is off. */
  function FeedAll<D>(s: State<D>, es: seq<Entry>, data: D, multi: bool): State<D>
  {
    if es == [] || s.log.mode == AofOff then s.(data := data, multi := multi) else
    var bytes := PrintAll(EntriesLog(s.log.sel, es));
    s.(data := data, multi := multi, log := FeedLog(s.log, es[|es| - 1].db, bytes), rw := FeedRewrite(s.rw, bytes))
  }

  lemma {:induction false} EntriesAppend(sel: int, a: seq<Entry>, b: seq<Entry>)
    ensures EntriesLog(sel, a + b) == EntriesLog(sel, a) + EntriesLog(Selected(sel, a), b)
    decreases |b|
  {
    hide FeedCommands;
    if b == [] {
      assert a + b == a;
    } else {
      var n := |b| - 1;
      EntriesAppend(sel, a, b[..n]);
      assert (a + b)[..|a| + n] == a + b[..n];
    }
  }

  lemma {:induction false} FeedTwice<D>(s: State<D>, a: seq<Entry>, d: D, m: bool, b: seq<Entry>, d': D, m': bool)
    ensures FeedAll(FeedAll(s, a, d, m), b, d', m') == FeedAll(s, a + b, d', m')
  {
    hide EntriesLog, PrintAll;
    if a == [] || b == [] {
      assert a + b == if a == [] then b else a;
    } else {
      EntriesAppend(s.log.sel, a, b);
      PrintAllAppend(EntriesLog(s.log.sel, a), EntriesLog(Selected(s.log.sel, a), b));
      var x, y := PrintAll(EntriesLog(s.log.sel, a)), PrintAll(EntriesLog(Selected(s.log.sel, a), b));
      assert s.log.buf + (x + y) == s.log.buf + x + y;
      assert s.rw.pending + (x + y) == s.rw.pending + x + y;
      if s.rw.child.Some? { assert s.rw.child.value.fed + (x + y) == s.rw.child.value.fed + x + y; }
    }
  }

  lemma OneEntry(sel: int, e: Entry)
    ensures PrintAll(EntriesLog(sel, [e])) == FeedBytes(sel, e.db, e.argv, e.now)
  {
    hide FeedCommands, PrintAll;
    assert [e][..0] == [] && EntriesLog(sel, []) == [];
    assert [] + FeedCommands(sel, e.db, e.argv, e.now) == FeedCommands(sel, e.db, e.argv, e.now);
  }

  /** MULTI, EXEC and a command that is propagated are each fed as an entry. */
  lemma EntryFed<D>(ds: Dataset<D>, s: State<D>, db: nat, argv: Argv, now: int)
    requires !s.exited
    ensures Run(ds, s, [MultiFed(db, now)]) == FeedAll(s, [Entry(db, MULTI, now)], s.data, true)
    ensures Run(ds, s, [ExecFed(db, now)]) == FeedAll(s, [Entry(db, EXEC, now)], s.data, false)
    ensures Run(ds, s, [Event.Command(db, argv, now)])
         == FeedAll(s, [Entry(db, argv, now)], ds.live(s.data, db, argv, now), s.multi)
  {
    hide EntriesLog, FeedBytes, PrintAll, Run, MULTI, EXEC;
    RunOne(ds, s, MultiFed(db, now));
    RunOne(ds, s, ExecFed(db, now));
    RunOne(ds, s, Event.Command(db, argv, now));
    OneEntry(s.log.sel, Entry(db, MULTI, now));
    OneEntry(s.log.sel, Entry(db, EXEC, now));
    OneEntry(s.log.sel, Entry(db, argv, now));
  }

  lemma {:induction false} DirtyFirst(commands: seq<Queued>)
    requires commands != [] && AllData(commands)
    ensures var q := commands[0];
            Dirty(commands) == (if q.dirty then [Entry(q.db, q.argv, q.now)] else []) + Dirty(commands[1..])
    decreases |commands|
  {
    var n := |commands| - 1;
    if n > 0 {
      DirtyFirst(commands[..n]);
      assert commands[..n][1..] == commands[1..][..n - 1];
    }
  }

  lemma {:induction false} BegunFirst(fed: bool, commands: seq<Queued>)
    requires commands != [] && AllData(commands)
    ensures var q := commands[0];
            Begun(fed, commands)
            == (if !fed && MayWrite(q) then [Entry(q.db, MULTI, q.now)] else [])
               + (if q.dirty then [Entry(q.db, q.argv, q.now)] else [])
               + Begun(fed || MayWrite(q), commands[1..])
    ensures Writes(commands) <==> MayWrite(commands[0]) || Writes(commands[1..])
  {
    hide Dirty, MayWrite, MULTI;
    var p, rest := FirstWrite(commands), commands[1..];
    DirtyFirst(commands);
    if MayWrite(commands[0]) {
      assert commands[0..] == commands && commands[..0] == [];
      DirtyNone();
    } else if p < |commands| {
      DirtyFirst(commands[..p]);
      assert commands[..p][1..] == rest[..p - 1] && commands[p..] == rest[p - 1..];
    }
  }

  lemma DirtyNone()
    ensures Dirty([]) == []
  {
  }

  lemma {:induction false} LiveFirst<D>(ds: Dataset<D>, data: D, a: seq<Entry>, b: seq<Entry>)
    ensures LiveAll(ds, data, a + b) == LiveAll(ds, LiveAll(ds, data, a), b)
    decreases |b|
  {
    if b == [] {
      assert a + b == a;
    } else {
      var n := |b| - 1;
      LiveFirst(ds, data, a, b[..n]);
      assert (a + b)[..|a| + n] == a + b[..n];
    }
  }

  lemma LiveOne<D>(ds: Dataset<D>, data: D, e: Entry)
    ensures LiveAll(ds, data, [e]) == ds.live(data, e.db, e.argv, e.now) && LiveAll(ds, data, []) == data
  {
    assert [e][..0] == [];
  }

  /** One command on the data: what it feeds, and what it does. */
  lemma DataFed<D>(ds: Dataset<D>, fsync: Fsync, s: State<D>, q: Queued)
    requires q.Data? && !s.exited
    ensures var t := if !s.multi && MayWrite(q) then Run(ds, s, [MultiFed(q.db, q.now)]) else s;
            var own := if q.dirty then [Entry(q.db, q.argv, q.now)] else [];
            var multi := if !s.multi && MayWrite(q) then [Entry(q.db, MULTI, q.now)] else [];
            Run(ds, t, QueuedEvents(t, fsync, q))
            == FeedAll(s, multi + own, LiveAll(ds, s.data, own), s.multi || MayWrite(q))
  {
    hide EntriesLog, PrintAll, Run, LiveAll;
    var t := if !s.multi && MayWrite(q) then Run(ds, s, [MultiFed(q.db, q.now)]) else s;
    var multi := if !s.multi && MayWrite(q) then [Entry(q.db, MULTI, q.now)] else [];
    EntryFed(ds, s, q.db, q.argv, q.now);
    assert t == FeedAll(s, multi, s.data, s.multi || MayWrite(q));
    EntryFed(ds, t, q.db, q.argv, q.now);
    LiveOne(ds, s.data, Entry(q.db, q.argv, q.now));
    RunOne(ds, t, RdbDone);
    var own := if q.dirty then [Entry(q.db, q.argv, q.now)] else [];
    FeedTwice(s, multi, s.data, s.multi || MayWrite(q), own, LiveAll(ds, s.data, own), s.multi || MayWrite(q));
  }

  /** Where the server is after commands on the data. */
  function AfterData<D>(ds: Dataset<D>, s: State<D>, commands: seq<Queued>): State<D>
    requires AllData(commands)
  {
    FeedAll(s, Begun(s.multi, commands), LiveAll(ds, s.data, Dirty(commands)), s.multi || Writes(commands))
  }

  /** And after the EXEC at the end. */
  function AfterExec<D>(ds: Dataset<D>, s: State<D>, commands: seq<Queued>, dbEnd: nat, now: int): State<D>
    requires AllData(commands)
  {
    FeedAll(s, Transaction(s.multi, commands, dbEnd, now), LiveAll(ds, s.data, Dirty(commands)), false)
  }

  lemma AfterNone<D>(ds: Dataset<D>, s: State<D>)
    ensures AfterData(ds, s, []) == s
  {
  }

  lemma {:induction false} AfterFirst<D>(ds: Dataset<D>, fsync: Fsync, s: State<D>, a: seq<Queued>)
    requires a != [] && AllData(a) && !s.exited
    ensures var q := a[0];
            var t := if !s.multi && MayWrite(q) then Run(ds, s, [MultiFed(q.db, q.now)]) else s;
            var u := Run(ds, t, QueuedEvents(t, fsync, q));
            && u.multi == (s.multi || MayWrite(q)) && !u.exited && AllData(a[1..])
            && AfterData(ds, s, a) == AfterData(ds, u, a[1..])
  {
    hide Run, QueuedEvents, Begun, Dirty, LiveAll, EntriesLog, PrintAll, Writes;
    var q, rest := a[0], a[1..];
    DataFed(ds, fsync, s, q);
    BegunFirst(s.multi, a);
    DirtyFirst(a);
    var own := if q.dirty then [Entry(q.db, q.argv, q.now)] else [];
    var multi := if !s.multi && MayWrite(q) then [Entry(q.db, MULTI, q.now)] else [];
    LiveFirst(ds, s.data, own, Dirty(rest));
    var m := s.multi || MayWrite(q);
    FeedTwice(s, multi + own, LiveAll(ds, s.data, own), m, Begun(m, rest),
              LiveAll(ds, s.data, Dirty(a)), s.multi || Writes(a));
  }

  /** Commands on the data, and then more. */
  lemma {:induction false} ExecData<D>(ds: Dataset<D>, fsync: Fsync, s: State<D>, a: seq<Queued>, b: seq<Queued>,
                                       dbEnd: nat, now: int)
    requires AllData(a) && !s.exited
    ensures var t := AfterData(ds, s, a);
            && !t.exited
            && Run(ds, s, ExecEvents(ds, fsync, s, s.multi, a + b, dbEnd, now))
               == Run(ds, t, ExecEvents(ds, fsync, t, t.multi, b, dbEnd, now))
    decreases |a|
  {
    hide Run, ExecEvents, QueuedEvents, AfterData;
    if a == [] {
      assert a + b == b;
      AfterNone(ds, s);
    } else {
      var q := a[0];
      assert (a + b)[0..] == a + b && (a + b)[1..] == a[1..] + b;
      NextQueued(ds, fsync, s, s.multi, a + b, 0, dbEnd, now);
      AfterFirst(ds, fsync, s, a);
      var t := if !s.multi && MayWrite(q) then Run(ds, s, [MultiFed(q.db, q.now)]) else s;
      ExecData(ds, fsync, Run(ds, t, QueuedEvents(t, fsync, q)), a[1..], b, dbEnd, now);
    }
  }

  /** A transaction of commands on the data: they run in order, and the log gets those that changed
      something, with MULTI before the first that may write, and then EXEC. */
  lemma TransactionFed<D>(ds: Dataset<D>, fsync: Fsync, s: State<D>, commands: seq<Queued>, dbEnd: nat, now: int)
    requires AllData(commands) && !s.exited
    ensures Run(ds, s, ExecEvents(ds, fsync, s, s.multi, commands, dbEnd, now))
         == AfterExec(ds, s, commands, dbEnd, now)
  {
    hide Run, ExecEvents, Begun, Dirty, LiveAll, EntriesLog, PrintAll, Writes;
    assert commands + [] == commands;
    ExecData(ds, fsync, s, commands, [], dbEnd, now);
    var t := AfterData(ds, s, commands);
    LastEvents(ds, fsync, t, t.multi, dbEnd, now);
    EntryFed(ds, t, dbEnd, [], now);
    assert Begun(s.multi, commands) + [] == Begun(s.multi, commands);
    FeedTwice(s, Begun(s.multi, commands), t.data, t.multi, [Entry(dbEnd, EXEC, now)], t.data, false);
  }

  /** A command among others that rewrites the log or switches it. */
  lemma ExecAround<D>(ds: Dataset<D>, fsync: Fsync, s: State<D>, a: seq<Queued>, q: Queued, b: seq<Queued>, dbEnd: nat,
                      now: int)
    requires AllData(a) && AllData(b) && !q.Data? && !s.exited
    ensures var t := AfterData(ds, s, a);
            var u := Run(ds, t, QueuedEvents(t, fsync, q));
            && !t.exited
            && (u.multi == t.multi ==>
                  Run(ds, s, ExecEvents(ds, fsync, s, s.multi, a + [q] + b, dbEnd, now))
                  == if u.exited then u else AfterExec(ds, u, b, dbEnd, now))
  {
    hide Run, ExecEvents, QueuedEvents, AfterData, AfterExec;
    var rest := [q] + b;
    assert a + [q] + b == a + rest;
    ExecData(ds, fsync, s, a, rest, dbEnd, now);
    var t := AfterData(ds, s, a);
    assert rest[0..] == rest && rest[1..] == b;
    NextQueued(ds, fsync, t, t.multi, rest, 0, dbEnd, now);
    var u := Run(ds, t, QueuedEvents(t, fsync, q));
    if u.multi == t.multi {
      if u.exited {
        NothingAfterExit(ds, fsync, u, u.multi, b, dbEnd, now);
      } else {
        TransactionFed(ds, fsync, u, b, dbEnd, now);
      }
    }
  }

  /** BGREWRITEAOF in a transaction: with a rewrite under way nothing, during an RDB save a note for
      later, and otherwise a child that writes the dataset as it is there, and to which what comes
      behind is fed, beginning with a SELECT. */
  lemma RewriteInExec<D>(ds: Dataset<D>, fsync: Fsync, s: State<D>, a: seq<Queued>, forkOk: bool, snapshot: seq<byte>,
                         b: seq<Queued>, dbEnd: nat, now: int)
    requires AllData(a) && AllData(b) && !s.exited
    ensures var t := AfterData(ds, s, a);
            var u := if t.rw.child.Some? || (!t.rw.rdbChild && !forkOk) then t
                     else if t.rw.rdbChild then t.(rw := t.rw.(scheduled := true))
                     else t.(log := t.log.(sel := -1),
                             rw := t.rw.(child := Some(Child(Rewriting, snapshot, [], snapshot, [])), stop := false,
                                         dataPipe := [], askPipe := [], ackPipe := [], scheduled := false));
            Run(ds, s, ExecEvents(ds, fsync, s, s.multi, a + [Bgrewriteaof(forkOk, snapshot)] + b, dbEnd, now))
            == AfterExec(ds, u, b, dbEnd, now)
  {
    hide Run, ExecEvents, AfterData, AfterExec;
    var t := AfterData(ds, s, a);
    ExecAround(ds, fsync, s, a, Bgrewriteaof(forkOk, snapshot), b, dbEnd, now);
    RunOne(ds, t, Schedule);
    RunOne(ds, t, ForkEvent(snapshot));
  }

  /** CONFIG SET appendonly yes in a transaction: nothing, unless the AOF is off and the file opens. Then
      a rewrite is scheduled if an RDB save is under way; otherwise it begins, in place of one that
      may be there. If it cannot, the AOF stays off, and that one is gone. */
  lemma SwitchOnInExec<D>(ds: Dataset<D>, fsync: Fsync, s: State<D>, a: seq<Queued>, openOk: bool, forkOk: bool,
                          snapshot: seq<byte>, b: seq<Queued>, dbEnd: nat, now: int)
    requires AllData(a) && AllData(b) && !s.exited
    ensures var t := AfterData(ds, s, a);
            var none := t.rw.(child := None, dataPipe := [], askPipe := [], ackPipe := [],
                              pending := if t.rw.child.Some? then [] else t.rw.pending);
            var u := if t.log.mode != AofOff || !openOk then t
                     else if t.rw.rdbChild then
                       t.(log := t.log.(mode := AofWaitRewrite, open := true), rw := t.rw.(scheduled := true))
                     else if forkOk then
                       t.(log := t.log.(mode := AofWaitRewrite, open := true, sel := -1),
                          rw := none.(child := Some(Child(Rewriting, snapshot, [], snapshot, [])), stop := false,
                                      scheduled := false))
                     else if t.rw.child.Some? then t.(rw := none) else t;
            Run(ds, s, ExecEvents(ds, fsync, s, s.multi, a + [AppendonlyYes(openOk, forkOk, snapshot)] + b, dbEnd, now))
            == AfterExec(ds, u, b, dbEnd, now)
  {
    hide Run, ExecEvents, AfterData, AfterExec;
    var t := AfterData(ds, s, a);
    ExecAround(ds, fsync, s, a, AppendonlyYes(openOk, forkOk, snapshot), b, dbEnd, now);
    RunOne(ds, t, TurnOn(openOk, forkOk, snapshot));
  }

  /** CONFIG SET appendonly no in a transaction: what has been fed is flushed, whatever fsync is doing;
      if that does not end the server, the AOF is off, and no rewrite is left. */
  lemma SwitchOffInExec<D>(ds: Dataset<D>, fsync: Fsync, s: State<D>, a: seq<Queued>, syncing: bool, unixtime: int,
                           results: seq<WriteResult>, truncOk: bool, b: seq<Queued>, dbEnd: nat, now: int)
    requires AllData(a) && AllData(b) && !s.exited
    ensures var t := AfterData(ds, s, a);
            var f := Flush(t, fsync, true, syncing, unixtime, WriteTotal(|t.log.buf|, results), truncOk);
            var none := f.rw.(child := None, pending := [], dataPipe := [], askPipe := [], ackPipe := []);
            var u := if t.log.mode == AofOff then t else if f.exited then f
                     else f.(log := f.log.(open := false, sel := -1, mode := AofOff),
                             rw := if f.rw.child.Some? then none else f.rw);
            Run(ds, s, ExecEvents(ds, fsync, s, s.multi,
                                  a + [AppendonlyNo(syncing, unixtime, results, truncOk)] + b, dbEnd, now))
            == if u.exited then u else AfterExec(ds, u, b, dbEnd, now)
  {
    hide Run, ExecEvents, AfterData, AfterExec, WriteTotal, FlushLog, FlushDies;
    var t := AfterData(ds, s, a);
    var n := WriteTotal(|t.log.buf|, results);
    ExecAround(ds, fsync, s, a, AppendonlyNo(syncing, unixtime, results, truncOk), b, dbEnd, now);
    if t.log.mode == AofOff {
      RunOne(ds, t, TurnOff);
    } else {
      FlushKeepsMode(t, fsync, true, syncing, unixtime, n, truncOk);
      StopIsRun(ds, t, fsync, syncing, unixtime, n, truncOk);
    }
  }

  class AofServer<D> {
    const ds: Dataset<D>
    const fsync: Fsync
    const log: AofLog
    const rw: AofRewrite
    var data: D
    var exited: bool
    /** MULTI has been propagated, and its EXEC has not. */
    ghost var multi: bool

    ghost predicate Valid()
      reads rw
    {
      rw.Valid()
    }

    ghost function View(): State<D>
      reads this, log, rw
    {
      State(data, log.View(), rw.View(), multi, exited)
    }

    constructor (ds: Dataset<D>, fsync: Fsync, appendonly: bool)
      ensures this.ds == ds && this.fsync == fsync && fresh(log) && fresh(rw)
      ensures Valid() && View() == Boot(ds, appendonly)
    {
      this.ds := ds;
      this.fsync := fsync;
      log := new AofLog(appendonly);
      rw := new AofRewrite();
      data := ds.sem.empty;
      exited, multi := false, false;
    }

    /** feedAppendOnlyFile */
    method FeedAppendOnlyFile(db: nat, argv: Argv, now: int)
      requires Valid()
      modifies log`sel, log`buf, rw`blocks, rw`fed
      ensures Valid()
      ensures var bytes := FeedBytes(old(log.sel), db, argv, now);
              log.View() == FeedLog(old(log.View()), db, bytes) && rw.View() == FeedRewrite(old(rw.View()), bytes)
    {
      hide FeedBytes, Flat;
      var bytes := BytesToFeed(log.sel, db, argv, now);
      if db != log.sel {
        log.sel := db;
      }
      if log.mode == AofOn {
        log.buf := log.buf + bytes;
      }
      rw.Feed(bytes);
    }

    /** Command execution and propagate(): with the AOF off nothing is fed. */
    method Propagate(db: nat, argv: Argv, now: int)
      requires Valid()
      modifies this`data, log, rw
      ensures Valid() && View() == AofRun.Propagate(ds, old(View()), db, argv, now)
    {
      data := ds.live(data, db, argv, now);
      if log.mode != AofOff {
        FeedAppendOnlyFile(db, argv, now);
      }
    }

    method Flush(force: bool, syncing: bool, unixtime: int, results: seq<WriteResult>, truncOk: bool)
      requires Valid() && !exited
      modifies this`exited, log
      ensures Valid()
      ensures View() == AofRun.Flush(old(View()), fsync, force, syncing, unixtime,
                                     WriteTotal(|old(log.buf)|, results), truncOk)
    {
      var dies := log.FlushAppendOnlyFile(fsync, force, syncing, unixtime, results, truncOk);
      if dies {
        exited := true;
      }
    }

    /** rewriteAppendOnlyFileBackground; `bytes` is what the child will write first. */
    method RewriteAppendOnlyFileBackground(forkOk: bool, bytes: seq<byte>) returns (ok: bool)
      requires Valid()
      modifies log`sel, rw
      ensures Valid()
      ensures ok == (forkOk && old(rw.View()).child.None? && !old(rw.rdbChild))
      ensures View() == if forkOk then Fork(old(View()), bytes) else old(View())
    {
      if rw.hasChild || rw.rdbChild || !forkOk {
        return false;
      }
      rw.StartChild(bytes);
      log.sel := -1;
      ok := true;
    }

    /** startAppendOnly */
    method StartAppendOnly(openOk: bool, forkOk: bool, bytes: seq<byte>)
      requires Valid() && log.mode == AofOff
      modifies log, rw
      ensures Valid() && View() == AofRun.StartAppendOnly(old(View()), openOk, forkOk, bytes)
    {
      if !openOk {
        return;
      }
      if rw.rdbChild {
        rw.scheduled := true;
      } else {
        rw.KillAppendOnlyChild();
        var ok := RewriteAppendOnlyFileBackground(forkOk, bytes);
        if !ok {
          return;
        }
      }
      log.mode := AofWaitRewrite;
      log.open := true;
    }

    /** stopAppendOnly: a forced flush, which may end the server, then the switch off. */
    method StopAppendOnly(syncing: bool, unixtime: int, results: seq<WriteResult>, truncOk: bool)
      requires Valid() && log.mode != AofOff && !exited
      modifies this`exited, log, rw
      ensures Valid()
      ensures var flushed := AofRun.Flush(old(View()), fsync, true, syncing, unixtime,
                                          WriteTotal(|old(log.buf)|, results), truncOk);
              View() == if flushed.exited then flushed else AofRun.StopAppendOnly(flushed)
    {
      hide AofRun.Flush, Flat;
      Flush(true, syncing, unixtime, results, truncOk);
      if exited {
        return;
      }
      FlushKeepsMode(old(View()), fsync, true, syncing, unixtime, WriteTotal(|old(log.buf)|, results), truncOk);
      log.open := false;
      log.sel := -1;
      log.mode := AofOff;
      rw.KillAppendOnlyChild();
    }

    /** The part of serverCron that starts a scheduled rewrite. */
    method ServerCron(forkOk: bool, bytes: seq<byte>)
      requires Valid() && !exited
      modifies log`sel, rw
      ensures Valid() && View() == Step(ds, old(View()), Cron(forkOk, bytes))
      ensures rw.hasChild <==>
              old(rw.hasChild) || (old(rw.scheduled) && !old(rw.rdbChild) && forkOk)
    {
      if !rw.hasChild && !rw.rdbChild && rw.scheduled {
        var ok := RewriteAppendOnlyFileBackground(forkOk, bytes);
      }
    }

    /** bgrewriteaofCommand */
    method BgrewriteaofCommand(forkOk: bool, bytes: seq<byte>)
      requires Valid() && !exited
      modifies log`sel, rw
      ensures Valid() && View() == Run(ds, old(View()), QueuedEvents(old(View()), fsync, Bgrewriteaof(forkOk, bytes)))
    {
      ghost var s := View();
      RunOne(ds, s, Schedule);
      RunOne(ds, s, ForkEvent(bytes));
      if rw.hasChild {
        return;
      }
      if rw.rdbChild {
        rw.scheduled := true;
        return;
      }
      var ok := RewriteAppendOnlyFileBackground(forkOk, bytes);
    }

    /** call() on a queued command. */
    method Call(q: Queued)
      requires Valid() && !exited
      modifies this`data, this`exited, log, rw
      ensures Valid() && View() == Run(ds, old(View()), QueuedEvents(old(View()), fsync, q))
    {
      hide AofRun.Propagate, AofRun.Flush, AofRun.StartAppendOnly, AofRun.StopAppendOnly, WriteTotal, Flat, Fork;
      ghost var s := View();
      match q
      case Data(db, argv, now, mayWrite, dirty) =>
        RunOne(ds, s, Event.Command(db, argv, now));
        if dirty {
          Propagate(db, argv, now);
        }
      case Bgrewriteaof(forkOk, bytes) =>
        BgrewriteaofCommand(forkOk, bytes);
      case AppendonlyYes(openOk, forkOk, bytes) =>
        RunOne(ds, s, TurnOn(openOk, forkOk, bytes));
        if log.mode == AofOff {
          StartAppendOnly(openOk, forkOk, bytes);
        }
      case AppendonlyNo(syncing, unixtime, results, truncOk) =>
        RunOne(ds, s, TurnOff);
        if log.mode != AofOff {
          StopIsRun(ds, s, fsync, syncing, unixtime, WriteTotal(|log.buf|, results), truncOk);
          StopAppendOnly(syncing, unixtime, results, truncOk);
        }
    }

    /** execCommand: MULTI is propagated before the first command that may write, then the
        queued commands run, then EXEC is propagated if MULTI was. */
    method ExecCommand(commands: seq<Queued>, dbEnd: nat, now: int)
      requires Valid() && !exited && !multi
      modifies this, log, rw
      ensures Valid() && (exited || !multi)
      ensures View() == Run(ds, old(View()), ExecEvents(ds, fsync, old(View()), false, commands, dbEnd, now))
      ensures AllData(commands) ==>
                && !exited && data == LiveAll(ds, old(data), Dirty(commands))
                && log.file == old(log.file) && log.mode == old(log.mode)
                && var fed := PrintAll(EntriesLog(old(log.sel), Transaction(false, commands, dbEnd, now)));
                   && log.buf == (if log.mode == AofOn then old(log.buf) + fed else old(log.buf))
                   && (rw.hasChild && log.mode != AofOff ==> rw.fed == old(rw.fed) + fed)
    {
      hide FeedBytes, Run, Step, ExecEvents, QueuedEvents, Flat, AfterExec;
      ghost var s := View();
      if AllData(commands) {
        TransactionFed(ds, fsync, s, commands, dbEnd, now);
        ExecFeeds(ds, s, commands, dbEnd, now);
      }
      var mustPropagate := false;
      var j := 0;
      assert commands[0..] == commands;
      while j < |commands|
        invariant j <= |commands| && Valid() && !exited && multi == mustPropagate
        invariant Run(ds, View(), ExecEvents(ds, fsync, View(), mustPropagate, commands[j..], dbEnd, now))
               == Run(ds, s, ExecEvents(ds, fsync, s, false, commands, dbEnd, now))
      {
        var q := commands[j];
        NextQueued(ds, fsync, View(), mustPropagate, commands, j, dbEnd, now);
        if !mustPropagate && MayWrite(q) {
          FeedMulti(q.db, q.now);
          mustPropagate := true;
        }
        Call(q);
        if exited {
          NothingAfterExit(ds, fsync, View(), mustPropagate, commands[j + 1..], dbEnd, now);
          return;
        }
        j := j + 1;
      }
      assert commands[j..] == [];
      LastEvents(ds, fsync, View(), mustPropagate, dbEnd, now);
      if mustPropagate {
        FeedExec(dbEnd, now);
      }
    }

    method FeedMulti(db: nat, now: int)
      requires Valid() && !exited
      modifies log`sel, log`buf, rw`blocks, rw`fed, this`multi
      ensures Valid() && multi && View() == Run(ds, old(View()), [MultiFed(db, now)])
    {
      hide FeedBytes, Flat;
      RunOne(ds, View(), MultiFed(db, now));
      if log.mode != AofOff {
        FeedAppendOnlyFile(db, MULTI, now);
      }
      multi := true;
    }

    method FeedExec(db: nat, now: int)
      requires Valid() && !exited
      modifies log`sel, log`buf, rw`blocks, rw`fed, this`multi
      ensures Valid() && !multi && View() == Run(ds, old(View()), [ExecFed(db, now)])
    {
      hide FeedBytes, Flat;
      RunOne(ds, View(), ExecFed(db, now));
      if log.mode != AofOff {
        FeedAppendOnlyFile(db, EXEC, now);
      }
      multi := false;
    }

    /** backgroundRewriteDoneHandler, called when the child has exited. */
    method BackgroundRewriteDoneHandler(openOk: bool, results: seq<WriteResult>, renameOk: bool) returns (ok: bool)
      requires Valid() && rw.hasChild && (rw.stage == ExitedOk || rw.stage == ExitedErr)
      modifies log, rw
      ensures Valid() && View() == RewriteDone(old(View()), ok)
      ensures ok <==> old(rw.stage) == ExitedOk && openOk && renameOk
                      && old(forall i :: 0 <= i < |rw.blocks| ==> WrittenInFull(rw.blocks[i], i, results))
    {
      hide Flat;
      ok := false;
      if rw.stage == ExitedOk && openOk {
        var newfile, full := rw.AofRewriteBufferWrite(rw.temp, results);
        if full && renameOk {
          log.SwitchFile(newfile);
          ok := true;
        }
      }
      rw.CleanupRewrite(log.mode == AofWaitRewrite);
    }
  }

  lemma ExecFeeds<D>(ds: Dataset<D>, s: State<D>, commands: seq<Queued>, dbEnd: nat, now: int)
    requires AllData(commands) && !s.multi
    ensures var t, fed := AfterExec(ds, s, commands, dbEnd, now),
                          PrintAll(EntriesLog(s.log.sel, Transaction(false, commands, dbEnd, now)));
            && t.exited == s.exited && t.data == LiveAll(ds, s.data, Dirty(commands))
            && t.log.file == s.log.file && t.log.mode == s.log.mode
            && t.log.buf == (if s.log.mode == AofOn then s.log.buf + fed else s.log.buf)
            && (t.rw.child.Some? <==> s.rw.child.Some?)
            && (s.rw.child.Some? && s.log.mode != AofOff ==> t.rw.child.value.fed == s.rw.child.value.fed + fed)
  {
    hide EntriesLog, LiveAll, Dirty;
    if Transaction(false, commands, dbEnd, now) == [] { NoEntries(s.log.sel); }
  }

  lemma NoEntries(sel: int)
    ensures PrintAll(EntriesLog(sel, [])) == [] && forall b: seq<byte> :: b + [] == b
  {
  }

  lemma FlushKeepsMode<D>(s: State<D>, fsync: Fsync, force: bool, syncing: bool, now: int, n: nat, truncOk: bool)
    requires n <= |s.log.buf|
    ensures Flush(s, fsync, force, syncing, now, n, truncOk).log.mode == s.log.mode
  {
  }

  /** A write that takes all, and any flush with fsync always that does not end the server, leave
      nothing in the buffer. */
  lemma AllOut(l: Log, fsync: Fsync, force: bool, syncing: bool, now: int, n: nat, truncOk: bool)
    requires n <= |l.buf|
    ensures var t, dies := FlushLog(l, fsync, force, syncing, now, n, truncOk),
                           FlushDies(l, fsync, force, syncing, now, n);
            && (l.open && n == |l.buf| &&
                  (fsync != FsyncEverysec || force || !syncing || (l.postponed != 0 && now - l.postponed >= 2)) ==>
                  !dies && t.file == l.file + l.buf && t.buf == [])
            && (fsync == FsyncAlways && !dies ==> t.file == l.file + l.buf && t.buf == [])
  {
    if l.buf == [] { assert l.file + l.buf == l.file; }
  }

  lemma FlatNothing()
    ensures Flat([]) == []
  {
  }

  lemma FlatOneMore(blocks: seq<seq<byte>>, i: nat)
    requires i < |blocks|
    ensures Flat(blocks[..i + 1]) == Flat(blocks[..i]) + blocks[i]
  {
    assert blocks[..i + 1] == blocks[..i] + [blocks[i]];
    FlatAppend(blocks[..i], [blocks[i]]);
    assert Flat([blocks[i]]) == blocks[i] + Flat([]);
  }

  /** Sending n bytes of the first block moves n bytes of the whole buffer. */
  lemma SendStep(all: seq<byte>, sent: nat, blocks: seq<seq<byte>>, n: nat, pipe: seq<byte>)
    requires sent <= |all| && blocks != [] && n <= |blocks[0]| && Flat(blocks) == all[sent..]
    ensures sent + n <= |all|
    ensures pipe + all[..sent] + blocks[0][..n] == pipe + all[..sent + n]
    ensures Flat(blocks[0 := blocks[0][n..]]) == all[sent + n..]
  {
    assert Flat(blocks) == blocks[0] + Flat(blocks[1..]);
    assert all[sent..][..n] == blocks[0][..n];
    assert all[..sent + n] == all[..sent] + all[sent..][..n];
    assert blocks[0 := blocks[0][n..]][1..] == blocks[1..];
    assert all[sent..][n..] == all[sent + n..];
    assert (blocks[0] + Flat(blocks[1..]))[n..] == blocks[0][n..] + Flat(blocks[1..]);
  }

  lemma PrintOne(argv: Argv)
    ensures PrintAll([argv]) == PrintCommand(argv)
  {
    assert PrintAll([argv]) == PrintCommand(argv) + PrintAll([]);
  }

  lemma PrintNone(r: seq<byte>)
    ensures r + PrintAll([]) == r
  {
  }

  lemma PrintTwo(dst: seq<byte>, argv: Argv, more: seq<Argv>)
    ensures dst + PrintAll([argv] + more) == dst + PrintCommand(argv) + PrintAll(more)
  {
    PrintAllAppend([argv], more);
    PrintOne(argv);
  }

  lemma PrintThree(dst: seq<byte>, argv: Argv, a: seq<Argv>, b: seq<Argv>)
    ensures dst + PrintAll([argv] + a + b) == dst + PrintCommand(argv) + PrintAll(a) + PrintAll(b)
  {
    PrintAllAppend([argv] + a, b);
    PrintAllAppend([argv], a);
    PrintOne(argv);
  }
}
