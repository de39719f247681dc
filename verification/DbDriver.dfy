/**
  PlanFuzzer's own end of the fork-server pipes (db_driver.cc): no child is ever
  forked, each test case is translated and executed on the database server, and
  the fuzzer is told about it in the fork server's words.
 */
module DbDriver {
  import opened Machine
  import opened Buffers
  import opened Options
  import opened Pipe
  import opened Handshake

  datatype ExecutionStatus =
    | ConnectFailed
    | ExecuteError
    | ServerCrash
    | Normal
    | Timeout
    | SyntaxError
    | SemanticError

  const MAX_INPUT: nat := 0x10_0000
  const STARTED: U32 := 0xff_ffff

  /** Answers to the driver's calls; a script that has run out answers no more. */
  datatype Answer = Answer(ok: bool, word: U32, length: int, translates: bool, result: ExecutionStatus, alive: bool)

  /** The status word of __afl_end_testcase(). */
  function EndWord(s: ExecutionStatus): U32 {
    if s == ServerCrash then 0x6 else 0xff_ffff
  }

  /** A served test case; `ran` is None when the plan could not be translated. */
  datatype Served = Served(word: U32, length: nat, ran: Option<ExecutionStatus>) {
    function Reported(): ExecutionStatus { if ran.None? then SyntaxError else ran.value }

    function Exchanged(): Exchange { Exchange(word, STARTED, EndWord(Reported())) }
  }

  /** Everything a test case causes before its status word. */
  function Work(c: Served): seq<Event> {
    [In(c.word), Loaded(c.length), Out(STARTED), Translated(c.ran.Some?)]
    + if c.ran.Some? then [Executed(c.ran.value == ServerCrash)] else []
  }

  function Trace(c: Served): seq<Event> { Work(c) + [Out(EndWord(c.Reported()))] }

  function Traces(cs: seq<Served>): seq<Event> {
    if cs == [] then [] else Traces(cs[..|cs| - 1]) + Trace(cs[|cs| - 1])
  }

  lemma NoTraces()
    ensures Traces([]) == []
  {
  }

  lemma TracesAppend(cs: seq<Served>, c: Served)
    ensures Traces(cs + [c]) == Traces(cs) + Trace(c)
  {
    assert (cs + [c])[..|cs|] == cs;
  }

  datatype Outcome = Again | NoTestcase | PipeClosed | ServerStaysDown

  class Driver {
    var script: seq<Answer>
    var log: seq<Event>

    constructor (script: seq<Answer>)
      ensures this.script == script && log == []
    {
      this.script, log := script, [];
    }

    method Next() returns (a: Option<Answer>)
      modifies this`script
      ensures old(script) == [] ==> a.None? && script == []
      ensures old(script) != [] ==> a == Some(old(script)[0]) && script == old(script)[1..]
    {
      if script == [] { return None; }
      a, script := Some(script[0]), script[1..];
    }

    /** read() of a test case: -1, or up to MAX_INPUT bytes. */
    method ReadCase() returns (n: int)
      modifies this
      ensures -1 <= n <= MAX_INPUT && |script| <= |old(script)| && log == old(log) + [Loaded(n)]
      ensures old(script) != [] && -1 <= old(script)[0].length <= MAX_INPUT ==> n == old(script)[0].length
    {
      var a := Next();
      n := if a.None? || a.value.length < 0 || a.value.length > MAX_INPUT then -1 else a.value.length;
      log := log + [Loaded(n)];
    }

    method Write(w: U32) returns (ok: bool)
      modifies this
      ensures |script| <= |old(script)| && log == if ok then old(log) + [Out(w)] else old(log)
      ensures ok <==> old(script) != [] && old(script)[0].ok
    {
      var a := Next();
      if a.None? || !a.value.ok { return false; }
      log, ok := log + [Out(w)], true;
    }

    /** __afl_next_testcase(): the test case is read before the start is reported. */
    method NextTestcase() returns (len: int, ghost word: U32, ghost n: int, ghost steps: nat)
      modifies this
      ensures n <= MAX_INPUT && |script| <= |old(script)|
      ensures steps <= 3 && log == old(log) + Begun(word, n, steps)
      ensures len == if steps == 3 then n else 0
      ensures len > 0 ==> |script| < |old(script)|
    {
      word, n, steps := 0, 0, 0;
      var a := Next();
      if a.None? || !a.value.ok { return 0, word, n, steps; }
      word, log := a.value.word, log + [In(a.value.word)];
      len := ReadCase();
      n := len;
      var ok := Write(STARTED);
      if !ok { return 0, word, n, 2; }
      return len, word, n, 3;
    }

    /** __afl_end_testcase() */
    method EndTestcase(s: ExecutionStatus) returns (ok: bool)
      modifies this
      ensures |script| <= |old(script)| && log == if ok then old(log) + [Out(EndWord(s))] else old(log)
    {
      var status := 0xff_ffff;
      if s == ServerCrash {
        status := 0x6;
      }
      ok := Write(status);
    }

    /** operator2PlannedStmt(): None stands for a plan that cannot be filled. */
    method Translate() returns (ok: bool)
      modifies this
      ensures |script| <= |old(script)| && log == old(log) + [Translated(ok)]
      ensures ok <==> old(script) != [] && old(script)[0].translates
    {
      var a := Next();
      ok := a.Some? && a.value.translates;
      log := log + [Translated(ok)];
    }

    method Execute() returns (s: ExecutionStatus)
      modifies this
      ensures |script| <= |old(script)| && log == old(log) + [Executed(s == ServerCrash)]
      ensures s == if old(script) == [] then ConnectFailed else old(script)[0].result
    {
      var a := Next();
      s := if a.None? then ConnectFailed else a.value.result;
      log := log + [Executed(s == ServerCrash)];
    }

    /** Poll until the crashed server is back. */
    method AwaitServer() returns (up: bool)
      modifies this`script
      ensures |script| <= |old(script)|
    {
      var a := Next();
      while a.Some? && !a.value.alive
        invariant |script| <= |old(script)|
        decreases a.Some?, |script|
      {
        a := Next();
      }
      return a.Some?;
    }

    /** One trip around the main loop. */
    method ServeOne() returns (o: Outcome, ghost c: Served, ghost n: int, ghost steps: nat)
      modifies this
      ensures o.Again? ==> |script| < |old(script)| && 0 < c.length <= MAX_INPUT && log == old(log) + Trace(c)
      ensures o.NoTestcase? ==> steps <= 3 && (steps == 3 ==> n <= 0) && log == old(log) + Begun(c.word, n, steps)
      ensures o.PipeClosed? ==> log == old(log) + Work(c)
      ensures o.ServerStaysDown? ==> c.ran == Some(ServerCrash) && log == old(log) + Work(c)
    {
      c := Served(0, 0, None);
      var len;
      ghost var word;
      len, word, n, steps := NextTestcase();
      c := c.(word := word);
      if len <= 0 { return NoTestcase, c, n, steps; }
      c := c.(length := len);
      var sql := Translate();
      if !sql {
        assert log == old(log) + Work(c);
        var ok := EndTestcase(SyntaxError);
        return if ok then Again else PipeClosed, c, n, steps;
      }
      var status := Execute();
      c := c.(ran := Some(status));
      assert log == old(log) + Work(c);
      if status == ServerCrash {
        var up := AwaitServer();
        if !up { return ServerStaysDown, c, n, steps; }
      }
      var ok := EndTestcase(status);
      return if ok then Again else PipeClosed, c, n, steps;
    }

    /** The main loop: every test case but the last one is served completely. */
    method Serve() returns (o: Outcome, ghost cs: seq<Served>, ghost word: U32, ghost rest: seq<Event>)
      modifies this
      ensures !o.Again? && log == old(log) + Traces(cs) + rest
      ensures forall i :: 0 <= i < |cs| ==> 0 < cs[i].length <= MAX_INPUT
      ensures Visible(rest) <= [In(word), Out(STARTED)]
    {
      hide Trace, Traces, Work, Visible, Begun;
      cs, word, rest, o := [], 0, [], Again;
      NoTraces();
      NoWord();
      while o.Again?
        invariant log == old(log) + Traces(cs) + rest
        invariant forall i :: 0 <= i < |cs| ==> 0 < cs[i].length <= MAX_INPUT
        invariant o.Again? ==> rest == []
        invariant Visible(rest) <= [In(word), Out(STARTED)]
        decreases o.Again?, |script|
      {
        ghost var c, n, steps;
        o, c, n, steps := ServeOne();
        if o.Again? {
          TracesAppend(cs, c);
          Associative(old(log), Traces(cs), Trace(c));
          cs := cs + [c];
        } else if o.NoTestcase? {
          word, rest := c.word, Begun(c.word, n, steps);
          VisibleBegun(c.word, n, steps);
        } else {
          word, rest := c.word, Work(c);
          VisibleWork(c);
        }
      }
    }
  }

  /** The first k steps of fetching a test case. */
  function Begun(word: U32, n: int, k: nat): seq<Event>
    requires k <= 3
  {
    [In(word), Loaded(n), Out(STARTED)][..k]
  }

  lemma VisibleBegun(word: U32, n: int, k: nat)
    requires k <= 3
    ensures Visible(Begun(word, n, k)) <= [In(word), Out(STARTED)]
  {
    hide Visible;
    var a, b, c := In(word), Loaded(n), Out(STARTED);
    OneWord(a);
    Hidden(b);
    OneWord(c);
    NoWord();
    VisibleConcat([a], [b]);
    VisibleConcat([a] + [b], [c]);
    assert Begun(word, n, 0) == [] && Begun(word, n, 1) == [a] && Begun(word, n, 2) == [a] + [b];
    assert Begun(word, n, 3) == [a] + [b] + [c];
  }

  lemma VisibleWork(c: Served)
    ensures Visible(Work(c)) == [In(c.word), Out(STARTED)]
    ensures Visible(Trace(c)) == Said(c.Exchanged())
  {
    hide Visible, EndWord;
    var fetched := [In(c.word)] + [Loaded(c.length)] + [Out(STARTED)];
    var ran := if c.ran.Some? then [Executed(c.ran.value == ServerCrash)] else [];
    assert Work(c) == fetched + [Translated(c.ran.Some?)] + ran;
    VisibleFetched(c);
    NoWord();
    Hidden(Translated(c.ran.Some?));
    if c.ran.Some? { Hidden(ran[0]); }
    OneWord(Out(EndWord(c.Reported())));
    VisibleConcat(fetched, [Translated(c.ran.Some?)]);
    VisibleConcat(fetched + [Translated(c.ran.Some?)], ran);
    VisibleConcat(Work(c), [Out(EndWord(c.Reported()))]);
  }

  lemma VisibleFetched(c: Served)
    ensures Visible([In(c.word)] + [Loaded(c.length)] + [Out(STARTED)]) == [In(c.word), Out(STARTED)]
  {
    hide Visible;
    OneWord(In(c.word));
    Hidden(Loaded(c.length));
    OneWord(Out(STARTED));
    VisibleConcat([In(c.word)], [Loaded(c.length)]);
    VisibleConcat([In(c.word)] + [Loaded(c.length)], [Out(STARTED)]);
  }

  function Exchanges(cs: seq<Served>): seq<Exchange> {
    seq(|cs|, i requires 0 <= i < |cs| => cs[i].Exchanged())
  }

  /**
    The fuzzer cannot tell the driver from a fork server: whether or not the plan
    was translated, each control word is followed by one start word and one
    status word before the next control word is read.
   */
  lemma {:induction false} CasesAreAConversation(cs: seq<Served>)
    ensures Visible(Traces(cs)) == Conversation(Exchanges(cs))
  {
    hide Trace;
    if cs == [] {
    } else {
      var k := |cs| - 1;
      CasesAreAConversation(cs[..k]);
      assert Exchanges(cs)[..k] == Exchanges(cs[..k]);
      VisibleConcat(Traces(cs[..k]), Trace(cs[k]));
      VisibleWork(cs[k]);
    }
  }

  // ---- what the fuzzer makes of it ----

  const MSAN_ERROR: U8 := 86
  const LSAN_ERROR: U8 := 23

  datatype CrashRules = CrashRules(usesAsan: bool, usesExitcode: bool, exitcode: U8)

  /** The crash test of afl_fsrv_run_target(). */
  predicate CountsAsCrash(rules: CrashRules, status: U32) {
    || WIfSignaled(status)
    || (rules.usesAsan && (WExitStatus(status) == MSAN_ERROR || WExitStatus(status) == LSAN_ERROR))
    || (rules.usesExitcode && WExitStatus(status) == rules.exitcode)
  }

  /**
    The fuzzer reports a crash exactly when the database server crashed, as long
    as it was not told that exit code 255 means a crash; and it never takes the
    driver for a stopped child.
   */
  lemma CrashVerdict(c: Served, rules: CrashRules)
    ensures CountsAsCrash(rules, c.Exchanged().ended) <==>
      c.ran == Some(ServerCrash) || (rules.usesExitcode && rules.exitcode == 255)
    ensures !WIfStopped(c.Exchanged().ended)
  {
  }

  // ---- the driver's handshake ----

  /** The offer of the driver's __afl_start_forkserver(). */
  function DriverOffer(mapSize: U32): U32 {
    if mapSize <= MAX_MAPSIZE then SetMapSize(mapSize) + MAPSIZE + ENABLED else 0
  }

  /**
    The driver never reads a reply, and indeed the fuzzer never sends one. The
    fuzzer gives up exactly when the driver's map does not fit or when it runs
    with a cmplog binary, which the driver does not announce support for.
   */
  lemma DriverInStep(mapSize: U32, f: Fuzzer)
    requires mapSize >= 1
    ensures
      var limit := if f.mapSize == 0 then MAP_SIZE else f.mapSize;
      FuzzerReply(f, DriverOffer(mapSize)).Fatal? <==>
        mapSize <= MAX_MAPSIZE && (f.cmplog || RoundedUp(mapSize) > limit)
    ensures FuzzerReply(f, DriverOffer(mapSize)).Replies? ==>
      && FuzzerReply(f, DriverOffer(mapSize)).words == []
      && !FuzzerReply(f, DriverOffer(mapSize)).readsDictionary
  {
    hide RoundedUp;
    if mapSize <= MAX_MAPSIZE {
      HighByte(DriverOffer(mapSize), 0xc0, SetMapSize(mapSize) + 1);
    }
  }
}
