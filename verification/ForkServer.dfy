/**
  The fork server compiled into every target (__afl_start_forkserver()) on a
  kernel whose answers are arbitrary: every run is a script of answers, and a
  script that has run out makes the next system call fail.
 */
module ForkServer {
  import opened Machine
  import opened Buffers
  import opened Options
  import opened Pipe
  import opened Handshake

  /** A child that nobody has waited for: SIGKILL may arrive at any moment. */
  datatype Proc = Running | Stopped | Killed

  datatype Answer = Answer(ok: bool, word: U32, count: nat, inChild: bool, kills: bool, stops: bool, status: Status)

  datatype ForkResult = ForkFailed | InChild | Parent(pid: U32)

  predicate IsPid(w: U32) { 0 < w < 0x8000_0000 }

  class Kernel {
    var script: seq<Answer>
    var log: seq<Event>
    var children: map<U32, Proc>

    constructor (script: seq<Answer>)
      ensures Valid() && this.script == script && log == [] && children == map[]
    {
      this.script, log, children := script, [], map[];
    }

    ghost predicate Valid()
      reads this
    {
      children.Keys == Live({}, log)
    }

    /** Waiting children keep their state or have been killed in the meantime. */
    twostate predicate OnlyKills(new c: map<U32, Proc>)
      reads this
    {
      c.Keys == old(children.Keys) && forall p :: p in c ==> c[p] == old(children)[p] || c[p] == Killed
    }

    method Next() returns (a: Option<Answer>)
      modifies this`script, this`children
      ensures OnlyKills(children)
      ensures old(script) == [] ==> a.None? && script == []
      ensures old(script) != [] ==> a == Some(old(script)[0]) && script == old(script)[1..]
    {
      if script == [] { return None; }
      a, script := Some(script[0]), script[1..];
      if a.value.kills {
        children := map p | p in children :: Killed;
      }
    }

    /** read() of one control word. */
    method Read() returns (w: Option<U32>)
      requires Valid()
      modifies this
      ensures Valid() && OnlyKills(children)
      ensures |script| <= |old(script)| && (w.Some? ==> |script| < |old(script)|)
      ensures log == if w.Some? then old(log) + [In(w.value)] else old(log)
      ensures w == if old(script) != [] && old(script)[0].ok then Some(old(script)[0].word) else None
    {
      var a := Next();
      if a.None? || !a.value.ok { return None; }
      LiveAppend({}, log, In(a.value.word));
      w, log := Some(a.value.word), log + [In(a.value.word)];
    }

    /** write() of one word. */
    method Write(w: U32) returns (ok: bool)
      requires Valid()
      modifies this
      ensures Valid() && OnlyKills(children)
      ensures |script| <= |old(script)| && (ok ==> |script| < |old(script)|)
      ensures log == if ok then old(log) + [Out(w)] else old(log)
      ensures ok <==> old(script) != [] && old(script)[0].ok
    {
      var a := Next();
      if a.None? || !a.value.ok { return false; }
      LiveAppend({}, log, Out(w));
      ok, log := true, log + [Out(w)];
    }

    /** write() of a block: the kernel takes any non-empty part of it. */
    method WriteSome(b: Bytes) returns (n: int)
      requires Valid() && b != []
      modifies this
      ensures Valid() && OnlyKills(children) && n <= |b|
      ensures |script| <= |old(script)|
      ensures log == if n < 1 then old(log) else old(log) + [Chunk(b[..n])]
    {
      var a := Next();
      if a.None? || !a.value.ok || a.value.count == 0 { return -1; }
      n := if a.value.count < |b| then a.value.count else |b|;
      LiveAppend({}, log, Chunk(b[..n]));
      log := log + [Chunk(b[..n])];
    }

    method Fork() returns (f: ForkResult)
      requires Valid()
      modifies this
      ensures Valid() && |script| <= |old(script)|
      ensures f.Parent? ==>
        && IsPid(f.pid) && f.pid !in old(children) && log == old(log) + [Forked(f.pid)]
        && children.Keys == old(children.Keys) + {f.pid}
      ensures !f.Parent? ==> log == old(log) && OnlyKills(children)
    {
      var a := Next();
      if a.None? || !a.value.ok || !IsPid(a.value.word) || a.value.word in children { return ForkFailed; }
      if a.value.inChild { return InChild; }
      LiveAppend({}, log, Forked(a.value.word));
      f, log, children := Parent(a.value.word), log + [Forked(a.value.word)], children[a.value.word := Running];
    }

    /** kill(pid, SIGCONT), whose result nobody looks at. */
    method Continue(pid: U32)
      requires Valid()
      modifies this`log, this`children
      ensures Valid() && children.Keys == old(children.Keys) && log == old(log) + [Continued(pid)]
      ensures pid in children ==> children[pid] != Stopped
    {
      LiveAppend({}, log, Continued(pid));
      log := log + [Continued(pid)];
      if pid in children && children[pid] == Stopped {
        children := children[pid := Running];
      }
    }

    /** waitpid(): a stop is reported only when asked for, an end reaps the child. */
    method Wait(pid: U32, untraced: bool) returns (s: Option<Status>)
      requires Valid()
      modifies this
      ensures Valid() && |script| <= |old(script)|
      ensures s.None? ==> log == old(log) && OnlyKills(children)
      ensures s.Some? ==> pid in old(children) && log == old(log) + [Waited(pid, s.value)]
      ensures s.Some? && s.value.Paused? ==> untraced && children.Keys == old(children.Keys) && children[pid] == Stopped
      ensures s.Some? && !s.value.Paused? ==> children.Keys == old(children.Keys) - {pid}
    {
      var a := Next();
      if a.None? || !a.value.ok || pid !in children { return None; }
      var st: Status;
      if children[pid] != Killed && untraced && a.value.stops {
        st := Paused(19);
        children := children[pid := Stopped];
      } else {
        st := if children[pid] == Killed || a.value.status.Paused? then Signaled(9, false) else a.value.status;
        children := children - {pid};
      }
      LiveAppend({}, log, Waited(pid, st));
      s, log := Some(st), log + [Waited(pid, st)];
    }
  }

  // ---- one request ----

  /**
    One trip around the server loop: the control word, the stopped child left
    over from the trip before, the child that ran and how its run ended. Only
    a word that arrived in the handshake is not read in the loop.
   */
  datatype Round = Round(read: bool, word: U32, held: Option<U32>, dropped: Status, pid: U32, status: Status) {
    /** The stopped child is woken up instead of forking. */
    predicate Resumes() { held.Some? && word == 0 }

    function Held(): Option<U32> { if status.Paused? then Some(pid) else None }

    predicate Fits(before: Option<U32>, persistent: bool) {
      && held == before
      && (Resumes() ==> pid == held.value)
      && !dropped.Paused?
      && (status.Paused? ==> persistent)
    }

    function Exchanged(): Exchange { Exchange(word, pid, StatusWord(status)) }
  }

  const STAGES := 6

  function Stage(r: Round, k: nat): seq<Event> {
    match k
    case 0 => if r.read then [In(r.word)] else []
    case 1 => if r.held.Some? && r.word != 0 then [Waited(r.held.value, r.dropped)] else []
    case 2 => [if r.Resumes() then Continued(r.pid) else Forked(r.pid)]
    case 3 => [Out(r.pid)]
    case 4 => [Waited(r.pid, r.status)]
    case _ => [Out(StatusWord(r.status))]
  }

  /** What has happened when the first k stages of a round are over. */
  function Begun(r: Round, k: nat): seq<Event> {
    if k == 0 then [] else Begun(r, k - 1) + Stage(r, k - 1)
  }

  function Trace(r: Round): seq<Event> { Begun(r, STAGES) }

  function Traces(rounds: seq<Round>): seq<Event> {
    if rounds == [] then [] else Traces(rounds[..|rounds| - 1]) + Trace(rounds[|rounds| - 1])
  }

  /** Each round starts with the child the round before left stopped. */
  ghost predicate Linked(before: Option<U32>, carried: bool, persistent: bool, rounds: seq<Round>) {
    forall i :: 0 <= i < |rounds| ==> LinkedAt(before, carried, persistent, rounds, i)
  }

  predicate LinkedAt(before: Option<U32>, carried: bool, persistent: bool, rounds: seq<Round>, i: nat)
    requires i < |rounds|
  {
    && rounds[i].Fits(if i == 0 then before else rounds[i - 1].Held(), persistent)
    && (!rounds[i].read <==> i == 0 && carried)
  }

  function Only(held: Option<U32>): set<U32> {
    match held case None => {} case Some(pid) => {pid}
  }

  datatype Outcome = Again | Gone | Child

  datatype Greeting = NotConnected | Aborted | Connected

  class Server {
    const kernel: Kernel
    const target: Target
    var childStopped: bool
    var childPid: U32
    var alreadyReadFirst: bool
    var wasKilled: U32

    constructor (kernel: Kernel, target: Target)
      ensures this.kernel == kernel && this.target == target && !childStopped && !alreadyReadFirst && wasKilled == 0
    {
      this.kernel, this.target := kernel, target;
      childStopped, childPid, alreadyReadFirst, wasKilled := false, 0, false, 0;
    }

    /** The child that is waiting for SIGCONT. */
    function Held(): Option<U32>
      reads this
    {
      if childStopped then Some(childPid) else None
    }

    /** At the loop head the only unreaped child is a stopped one, and it is childPid. */
    ghost predicate AtHead()
      reads this, kernel
    {
      && kernel.Valid()
      && kernel.children.Keys == Only(Held())
      && (childStopped ==> kernel.children[childPid] != Running)
    }

    /** Get the control word, and write off a stopped child that was killed. */
    method TakeRequest() returns (ok: bool, ghost r: Round, ghost after: nat)
      requires AtHead()
      modifies this, kernel
      ensures r.Fits(old(Held()), target.persistent) && r.read == !old(alreadyReadFirst)
      ensures !r.read ==> r.word == old(wasKilled)
      ensures after <= 2 && kernel.log == old(kernel.log) + Begun(r, after) && |kernel.script| <= |old(kernel.script)|
      ensures ok <==> after == 2
      ensures ok ==> AtHead() && !alreadyReadFirst && Held() == if r.Resumes() then r.held else None
    {
      hide Begun;
      r, after := Round(!alreadyReadFirst, wasKilled, Held(), Exited(0), childPid, Exited(0)), 0;
      BegunTwo(r);
      if alreadyReadFirst {
        alreadyReadFirst := false;
      } else {
        var w := kernel.Read();
        if w.None? { return false, r, after; }
        wasKilled := w.value;
      }
      r, after := r.(word := wasKilled), 1;
      BegunTwo(r);
      if childStopped && wasKilled != 0 {
        childStopped := false;
        var gone := kernel.Wait(childPid, false);
        if gone.None? { return false, r, after; }
        r := r.(dropped := gone.value);
        BegunTwo(r);
      }
      return true, r, 2;
    }

    /** Fork a child, or wake up the stopped one. */
    method StartChild() returns (o: Outcome)
      requires AtHead()
      modifies this`childStopped, this`childPid, kernel
      ensures kernel.Valid() && |kernel.script| <= |old(kernel.script)|
      ensures !o.Again? ==> kernel.log == old(kernel.log)
      ensures o.Again? ==>
        && !childStopped && kernel.children.Keys == {childPid}
        && (old(childStopped) ==> childPid == old(childPid))
        && kernel.log == old(kernel.log) + [if old(childStopped) then Continued(childPid) else Forked(childPid)]
    {
      if !childStopped {
        var f := kernel.Fork();
        match f {
          case ForkFailed => return Gone;
          case InChild => return Child;
          case Parent(pid) => childPid := pid;
        }
      } else {
        kernel.Continue(childPid);
        childStopped := false;
      }
      return Again;
    }

    /** Announce the child, wait for it and relay its status. */
    method AwaitChild() returns (ok: bool, ghost status: Status, ghost after: nat)
      requires kernel.Valid() && !childStopped && kernel.children.Keys == {childPid}
      modifies this`childStopped, kernel
      ensures after <= 3 && (status.Paused? ==> target.persistent)
      ensures kernel.log == old(kernel.log)
        + [Out(childPid), Waited(childPid, status), Out(StatusWord(status))][..after]
      ensures ok <==> after == 3
      ensures ok ==> AtHead() && Held() == (if status.Paused? then Some(childPid) else None)
      ensures ok ==> |kernel.script| < |old(kernel.script)|
    {
      status, after := Exited(0), 0;
      ok := kernel.Write(childPid);
      if !ok { return; }
      after := 1;
      var s := kernel.Wait(childPid, target.persistent);
      if s.None? { ok := false; return; }
      status, after := s.value, 2;
      StatusWordRead(s.value);
      if WIfStopped(StatusWord(s.value)) {
        childStopped := true;
      }
      ok := kernel.Write(StatusWord(s.value));
      if ok { after := 3; }
    }

    /** One trip around the loop; `after` counts the stages that were completed. */
    method ServeOne() returns (o: Outcome, ghost r: Round, ghost after: nat)
      requires AtHead()
      modifies this, kernel
      ensures r.Fits(old(Held()), target.persistent) && r.read == !old(alreadyReadFirst)
      ensures !r.read ==> r.word == old(wasKilled)
      ensures after <= STAGES && kernel.log == old(kernel.log) + Begun(r, after)
      ensures o.Again? <==> after == STAGES
      ensures o.Again? ==>
        && AtHead() && Held() == r.Held() && !alreadyReadFirst
        && |kernel.script| < |old(kernel.script)|
    {
      hide Begun;
      var ok;
      ok, r, after := TakeRequest();
      if !ok { return Gone, r, after; }
      ghost var log := kernel.log;
      o := StartChild();
      if !o.Again? { return; }
      ghost var status, k;
      ok, status, k := AwaitChild();
      ghost var taken := r;
      r, after := r.(pid := childPid, status := status), 3 + k;
      BegunStaged(taken, r, old(kernel.log), k);
      if !ok { o := Gone; }
    }

    /** The loop, until a system call fails or the run is followed into a child. */
    method Serve() returns (ghost rounds: seq<Round>, ghost last: Round, ghost after: nat)
      requires AtHead()
      modifies this, kernel
      ensures Linked(old(Held()), old(alreadyReadFirst), target.persistent, rounds + [last])
      ensures old(alreadyReadFirst) ==> (rounds + [last])[0].word == old(wasKilled)
      ensures after < STAGES && kernel.log == old(kernel.log) + Traces(rounds) + Begun(last, after)
    {
      hide Begun;
      rounds := [];
      var o;
      o, last, after := ServeOne();
      assert rounds + [last] == [last];
      while o.Again?
        invariant o.Again? <==> after == STAGES
        invariant after <= STAGES && kernel.log == old(kernel.log) + Traces(rounds) + Begun(last, after)
        invariant Linked(old(Held()), old(alreadyReadFirst), target.persistent, rounds + [last])
        invariant old(alreadyReadFirst) ==> (rounds + [last])[0].word == old(wasKilled)
        invariant o.Again? ==> AtHead() && Held() == last.Held() && !alreadyReadFirst
        decreases o.Again?, |kernel.script|
      {
        ghost var done := rounds + [last];
        TracesAppend(rounds, last);
        rounds := done;
        o, last, after := ServeOne();
        LinkedAppend(old(Held()), old(alreadyReadFirst), target.persistent, done, last);
      }
    }

    /** Hand the dictionary over, however many writes that takes. */
    method SendDictionary() returns (ok: bool, ghost chunks: seq<Event>)
      requires kernel.Valid() && 0 < |target.dictionary| < TWO_32
      modifies kernel
      ensures kernel.Valid() && kernel.children.Keys == old(kernel.children.Keys)
      ensures Quiet(old(kernel.log)) ==> Quiet(kernel.log)
      ensures ok ==>
        && kernel.log == old(kernel.log) + [Out(|target.dictionary|)] + chunks
        && AllChunks(chunks) && Joined(chunks) == target.dictionary
    {
      hide Joined;
      chunks := [];
      NothingJoined();
      ok := kernel.Write(|target.dictionary|);
      if !ok { return; }
      var length, offset := |target.dictionary|, 0;
      while length != 0
        invariant 0 <= offset && 0 <= length && offset + length == |target.dictionary|
        invariant kernel.Valid() && kernel.children.Keys == old(kernel.children.Keys)
        invariant kernel.log == old(kernel.log) + [Out(|target.dictionary|)] + chunks
        invariant AllChunks(chunks) && Joined(chunks) == target.dictionary[..offset]
        decreases length
      {
        var block := target.dictionary[offset..offset + length];
        var n := kernel.WriteSome(block);
        if n < 1 { return false, chunks; }
        MoreJoined(target.dictionary, offset, length, n, chunks);
        chunks := chunks + [Chunk(block[..n])];
        length, offset := length - n, offset + n;
      }
      assert target.dictionary[..offset] == target.dictionary;
    }

    /**
      The handshake. `mapped` says whether the shared test case can be mapped
      when the fuzzer agrees to use it; the target gives up when it cannot.
     */
    method Greet(mapped: bool) returns (g: Greeting, ghost reply: U32, ghost chunks: seq<Event>)
      requires AtHead() && !alreadyReadFirst && |target.dictionary| < TWO_32
      modifies this`alreadyReadFirst, this`wasKilled, kernel
      ensures g.NotConnected? ==> kernel.log == old(kernel.log)
      ensures Quiet(old(kernel.log)) ==> Quiet(kernel.log)
      ensures g.Connected? ==>
        && kernel.Valid() && kernel.children.Keys == old(kernel.children.Keys)
        && kernel.log == old(kernel.log) + Greeted(target, reply, chunks)
        && AllChunks(chunks)
        && Joined(chunks) == (if OffersExtras(target) && SendsDictionary(target, reply) then target.dictionary else [])
        && alreadyReadFirst == (OffersExtras(target) && Carries(target, reply))
        && (OffersExtras(target) ==> wasKilled == reply && (WantsSharedCase(reply) ==> mapped))
    {
      hide Offer, IsEnabled, HasDictionary, HasSharedCase, Live, Quiet;
      reply, chunks := 0, [];
      var ok := kernel.Write(Offer(target));
      if !ok { return NotConnected, reply, chunks; }
      QuietAppend(old(kernel.log), Out(Offer(target)));
      if target.sharedCase || target.dictionary != [] {
        var w := kernel.Read();
        if w.None? { return Aborted, reply, chunks; }
        wasKilled, reply := w.value, w.value;
        QuietAppend(old(kernel.log) + [Out(Offer(target))], In(reply));
        if WantsSharedCase(wasKilled) && !mapped {
          QuietAppend(kernel.log, Out(SHM_OPEN_ERROR));
          ok := kernel.Write(SHM_OPEN_ERROR);
          return Aborted, reply, chunks;
        }
        if SendsDictionary(target, wasKilled) {
          ok, chunks := SendDictionary();
          if !ok { return Aborted, reply, chunks; }
        } else if !WantsSharedCase(wasKilled) {
          alreadyReadFirst := true;
        }
      }
      return Connected, reply, chunks;
    }

    /** A whole run, on any kernel: never more than one unreaped child. */
    method Run(mapped: bool) returns (g: Greeting, ghost reply: U32, ghost chunks: seq<Event>,
                                      ghost rounds: seq<Round>, ghost last: Round, ghost after: nat)
      requires AtHead() && Held() == None && !alreadyReadFirst && |target.dictionary| < TWO_32
      requires kernel.log == []
      modifies this, kernel
      ensures AtMostOneChild({}, kernel.log)
      ensures g.Connected? ==>
        && kernel.log == Greeted(target, reply, chunks) + Traces(rounds) + Begun(last, after)
        && after < STAGES && AllChunks(chunks)
        && Linked(None, OffersExtras(target) && Carries(target, reply), target.persistent, rounds + [last])
        && (OffersExtras(target) && Carries(target, reply) ==> (rounds + [last])[0].word == reply)
    {
      hide Begun, Greeted, Linked, Traces, Live, Carries, OffersExtras, AtMostOneChild;
      rounds, after := [], 0;
      last := Round(true, 0, None, Exited(0), 0, Exited(0));
      g, reply, chunks := Greet(mapped);
      QuietRun({}, kernel.log);
      if g.Connected? {
        ghost var greeting := kernel.log;
        assert greeting == Greeted(target, reply, chunks);
        rounds, last, after := Serve();
        RunSafe(greeting, target.persistent, OffersExtras(target) && Carries(target, reply), rounds, last, after);
      }
    }
  }

  /** Rounds after a handshake that creates no child. */
  lemma RunSafe(greeting: seq<Event>, persistent: bool, carried: bool, rounds: seq<Round>, last: Round, after: nat)
    requires Live({}, greeting) == {} && AtMostOneChild({}, greeting)
    requires Linked(None, carried, persistent, rounds + [last]) && after <= STAGES
    ensures AtMostOneChild({}, greeting + Traces(rounds) + Begun(last, after))
  {
    hide Begun, Linked, Traces, Live, AtMostOneChild;
    RoundsSafe(persistent, carried, rounds, last, after);
    AtMostOneConcat({}, greeting, Traces(rounds) + Begun(last, after));
    assert greeting + (Traces(rounds) + Begun(last, after)) == greeting + Traces(rounds) + Begun(last, after);
  }

  /** FS_OPT_ERROR with FS_ERROR_SHM_OPEN in its error field. */
  const SHM_OPEN_ERROR: U32 := ErrorWord(4)

  /** FS_OPT_ERROR | FS_OPT_SET_ERROR(code) */
  function ErrorWord(code: nat): U32
    requires code < 0x1_0000
  {
    0xf800_008f + code * 0x100
  }

  /** Whatever the error, whoever reads it as an offer gives up and finds the code in it. */
  lemma ErrorRecognised(f: Fuzzer, code: nat)
    requires code < 0x1_0000
    ensures IsError(ErrorWord(code)) && ErrorWord(code) / 0x100 % 0x1_0000 == code
    ensures FuzzerReply(f, ErrorWord(code)).Fatal?
  {
    hide IsEnabled, WorkedAround, HasSharedCase, HasNewCmplog, HasMapSize, HasDictionary, GetMapSize, RoundedUp;
    ErrorBits(ErrorWord(code), code);
  }

  lemma ErrorBits(w: U32, code: nat)
    requires code < 0x1_0000 && w == 0x1f * 0x0800_0000 + code * 0x100 + 0x8f
    ensures w / 0x0800_0000 == 0x1f && w / 0x100 == 0xf8_0000 + code && w % 0x100 == 0x8f
    ensures w / 0x80 % 2 == 1 && w % 0x10 == 0xf && (0xf8_0000 + code) % 0x1_0000 == code
  {
    Quotient(w, 0x0800_0000, 0x1f, code * 0x100 + 0x8f);
    Quotient(w, 0x100, 0xf8_0000 + code, 0x8f);
    Quotient(w, 0x80, 2 * (0xf8_0000 + code) + 1, 0xf);
    Quotient(w, 0x10, 0x10 * (0xf8_0000 + code) + 8, 0xf);
    Quotient(0xf8_0000 + code, 0x1_0000, 0xf8, code);
  }

  predicate AllChunks(log: seq<Event>) {
    forall e :: e in log ==> e.Chunk?
  }

  function Joined(chunks: seq<Event>): Bytes
    requires AllChunks(chunks)
  {
    if chunks == [] then [] else Joined(chunks[..|chunks| - 1]) + chunks[|chunks| - 1].bytes
  }

  lemma JoinedAppend(chunks: seq<Event>, b: Bytes)
    requires AllChunks(chunks)
    ensures AllChunks(chunks + [Chunk(b)]) && Joined(chunks + [Chunk(b)]) == Joined(chunks) + b
  {
    assert (chunks + [Chunk(b)])[..|chunks|] == chunks;
  }

  lemma NothingJoined()
    ensures Joined([]) == []
  {
  }

  lemma MoreJoined(dictionary: Bytes, offset: nat, length: nat, n: nat, chunks: seq<Event>)
    requires offset + length == |dictionary| && n <= length
    requires AllChunks(chunks) && Joined(chunks) == dictionary[..offset]
    ensures
      var more := chunks + [Chunk(dictionary[offset..offset + length][..n])];
      AllChunks(more) && Joined(more) == dictionary[..offset + n]
  {
    hide Joined;
    var block := dictionary[offset..offset + length][..n];
    JoinedAppend(chunks, block);
    assert dictionary[..offset] + block == dictionary[..offset + n];
  }

  /** What a completed handshake puts on the pipes. */
  function Greeted(t: Target, reply: U32, chunks: seq<Event>): seq<Event> {
    if !OffersExtras(t) then [Out(Offer(t))]
    else if SendsDictionary(t, reply) then [Out(Offer(t)), In(reply), Out(|t.dictionary| % TWO_32)] + chunks
    else [Out(Offer(t)), In(reply)]
  }

  /** No child is created, woken up or waited for. */
  predicate Quiet(log: seq<Event>) {
    forall e :: e in log ==> e.In? || e.Out? || e.Chunk?
  }

  lemma QuietAppend(log: seq<Event>, e: Event)
    requires e.In? || e.Out?
    ensures Quiet(log) ==> Quiet(log + [e])
  {
  }

  lemma {:induction false} QuietRun(live: set<U32>, log: seq<Event>)
    requires Quiet(log) && |live| <= 1
    ensures Live(live, log) == live && AtMostOneChild(live, log)
    decreases |log|
  {
    if log == [] {
    } else {
      var k := |log| - 1;
      QuietRun(live, log[..k]);
      assert log == log[..k] + [log[k]];
      LiveAppend(live, log[..k], log[k]);
      AtMostOneAppend(live, log[..k], log[k]);
    }
  }

  lemma LinkedAppend(before: Option<U32>, carried: bool, persistent: bool, rounds: seq<Round>, r: Round)
    requires Linked(before, carried, persistent, rounds) && rounds != []
    requires r.Fits(rounds[|rounds| - 1].Held(), persistent) && r.read
    ensures Linked(before, carried, persistent, rounds + [r])
  {
    forall i | 0 <= i < |rounds| + 1
      ensures LinkedAt(before, carried, persistent, rounds + [r], i)
    {
      assert i < |rounds| ==> LinkedAt(before, carried, persistent, rounds, i);
    }
  }

  // ---- what every run keeps ----

  /** The unreaped children after the first k stages of a round. */
  function LiveAfter(r: Round, k: nat): set<U32> {
    if k < 2 then Only(r.held)
    else if k == 2 then if r.Resumes() then {r.pid} else {}
    else if k < 5 then {r.pid}
    else Only(r.Held())
  }

  lemma {:induction false} RoundSafe(r: Round, persistent: bool, k: nat)
    requires r.Fits(r.held, persistent) && k <= STAGES
    ensures AtMostOneChild(Only(r.held), Begun(r, k))
    ensures Live(Only(r.held), Begun(r, k)) == LiveAfter(r, k)
  {
    hide Live, AtMostOneChild, Stage, LiveAfter, Step;
    var live := Only(r.held);
    if k == 0 {
      QuietRun(live, []);
      assert LiveAfter(r, 0) == live by { StartsHeld(r); }
    } else {
      RoundSafe(r, persistent, k - 1);
      StageSafe(r, persistent, k - 1);
      if Stage(r, k - 1) == [] {
        assert Begun(r, k) == Begun(r, k - 1);
      } else {
        var e := Stage(r, k - 1)[0];
        LiveAppend(live, Begun(r, k - 1), e);
        AtMostOneAppend(live, Begun(r, k - 1), e);
      }
    }
  }

  lemma StartsHeld(r: Round)
    ensures LiveAfter(r, 0) == Only(r.held)
  {
  }

  /** A stage is at most one event, and takes the children to the next stage. */
  lemma StageSafe(r: Round, persistent: bool, k: nat)
    requires r.Fits(r.held, persistent) && k < STAGES
    ensures Stage(r, k) == [] ==> LiveAfter(r, k + 1) == LiveAfter(r, k)
    ensures Stage(r, k) != [] ==>
      && Stage(r, k) == [Stage(r, k)[0]]
      && Step(LiveAfter(r, k), Stage(r, k)[0]) == LiveAfter(r, k + 1) && |LiveAfter(r, k + 1)| <= 1
  {
    hide StatusWord;
  }

  function HeldAfter(rounds: seq<Round>): Option<U32> {
    if rounds == [] then None else rounds[|rounds| - 1].Held()
  }

  /**
    Safety over every run: at no moment more than one unreaped child, and
    between rounds that child is the one the last round left stopped.
   */
  lemma {:induction false} RoundsSafe(persistent: bool, carried: bool, rounds: seq<Round>, last: Round, after: nat)
    requires Linked(None, carried, persistent, rounds + [last]) && after <= STAGES
    ensures AtMostOneChild({}, Traces(rounds) + Begun(last, after))
    ensures Live({}, Traces(rounds)) == Only(HeldAfter(rounds))
    decreases |rounds|
  {
    hide Live, AtMostOneChild, Begun;
    var all := rounds + [last];
    assert LinkedAt(None, carried, persistent, all, |rounds|);
    if rounds == [] {
      QuietRun({}, []);
    } else {
      var k := |rounds| - 1;
      assert LinkedAt(None, carried, persistent, all, k);
      assert all[k] == rounds[k] && rounds[k].held == HeldAfter(rounds[..k]);
      assert rounds[..k] + [rounds[k]] == rounds == all[..k + 1];
      LinkedPrefix(None, carried, persistent, all, k + 1);
      RoundsSafe(persistent, carried, rounds[..k], rounds[k], STAGES);
      RoundSafe(rounds[k], persistent, STAGES);
      LiveConcat({}, Traces(rounds[..k]), Trace(rounds[k]));
    }
    RoundSafe(last, persistent, after);
    AtMostOneConcat({}, Traces(rounds), Begun(last, after));
  }

  lemma LinkedPrefix(before: Option<U32>, carried: bool, persistent: bool, rounds: seq<Round>, n: nat)
    requires Linked(before, carried, persistent, rounds) && n <= |rounds|
    ensures Linked(before, carried, persistent, rounds[..n])
  {
    forall i | 0 <= i < n
      ensures LinkedAt(before, carried, persistent, rounds[..n], i)
    {
      assert LinkedAt(before, carried, persistent, rounds, i);
    }
  }

  function Exchanges(rounds: seq<Round>): seq<Exchange> {
    seq(|rounds|, i requires 0 <= i < |rounds| => rounds[i].Exchanged())
  }

  /** A request that already arrived in the handshake. */
  function Lead(rounds: seq<Round>): seq<Event> {
    if rounds != [] && !rounds[0].read then [In(rounds[0].word)] else []
  }

  /**
    What the fuzzer sees of completed rounds: for each control word exactly one
    word naming the child and then one word with that child's status, before the
    next control word is read.
   */
  lemma {:induction false} RoundsAreAConversation(before: Option<U32>, carried: bool, persistent: bool,
                                                  rounds: seq<Round>)
    requires Linked(before, carried, persistent, rounds)
    ensures Lead(rounds) + Visible(Traces(rounds)) == Conversation(Exchanges(rounds))
    decreases |rounds|
  {
    hide StatusWord, Begun, Trace, Traces, Visible, Conversation, Exchanges, Linked, Said;
    if rounds == [] {
      NothingSaid();
    } else {
      var k := |rounds| - 1;
      var done, last := rounds[..k], rounds[k];
      assert rounds == done + [last];
      OnlyFirstCarried(before, carried, persistent, rounds, k);
      LinkedPrefix(before, carried, persistent, rounds, k);
      RoundsAreAConversation(before, carried, persistent, done);
      TracesAppend(done, last);
      VisibleConcat(Traces(done), Trace(last));
      VisibleRound(last);
      OneMoreSaid(done, last);
      if k == 0 {
        NothingSaid();
      } else {
        Associative(Lead(done), Visible(Traces(done)), Visible(Trace(last)));
      }
    }
  }

  lemma NothingSaid()
    ensures Visible(Traces([])) == [] && Conversation(Exchanges([])) == []
  {
    NoWord();
  }

  lemma OneMoreSaid(rounds: seq<Round>, r: Round)
    ensures Conversation(Exchanges(rounds + [r])) == Conversation(Exchanges(rounds)) + Said(r.Exchanged())
  {
    hide Said;
    var xs := Exchanges(rounds + [r]);
    assert xs[..|rounds|] == Exchanges(rounds) && xs[|rounds|] == r.Exchanged();
  }

  lemma OnlyFirstCarried(before: Option<U32>, carried: bool, persistent: bool, rounds: seq<Round>, k: nat)
    requires Linked(before, carried, persistent, rounds) && k < |rounds|
    ensures k > 0 ==> rounds[k].read
  {
    assert LinkedAt(before, carried, persistent, rounds, k);
  }

  /**
    The rounds of a run serve, in order, the control words that the handshake
    leaves as run requests.
   */
  lemma RequestsServed(t: Target, reply: U32, chunks: seq<Event>, persistent: bool, rounds: seq<Round>)
    requires AllChunks(chunks) && rounds != []
    requires Linked(None, OffersExtras(t) && Carries(t, reply), persistent, rounds)
    requires OffersExtras(t) && Carries(t, reply) ==> rounds[0].word == reply
    ensures Served(t, Controls(Visible(Greeted(t, reply, chunks) + Traces(rounds)))) == Requests(Exchanges(rounds))
  {
    hide Carries, SendsDictionary, OffersExtras, Offer, Traces, Conversation, Visible, Controls;
    RoundsAreAConversation(None, OffersExtras(t) && Carries(t, reply), persistent, rounds);
    ConversationControls(Exchanges(rounds));
    ControlsConcat(Lead(rounds), Visible(Traces(rounds)));
    VisibleConcat(Greeted(t, reply, chunks), Traces(rounds));
    ControlsConcat(Visible(Greeted(t, reply, chunks)), Visible(Traces(rounds)));
    GreetedControls(t, reply, chunks);
    assert LinkedAt(None, OffersExtras(t) && Carries(t, reply), persistent, rounds, 0);
    OneWord(In(rounds[0].word));
    NoWord();
  }

  /**
    Fuzzer and fork server together: when the control words of a run are the
    fuzzer's reply and then its requests, the rounds serve exactly the requests
    if and only if the reply is not a bare refusal.
   */
  lemma RunServesRequests(t: Target, f: Fuzzer, reply: U32, chunks: seq<Event>, persistent: bool,
                          rounds: seq<Round>, requests: seq<U32>)
    requires AllChunks(chunks) && rounds != []
    requires Linked(None, OffersExtras(t) && Carries(t, reply), persistent, rounds)
    requires OffersExtras(t) && Carries(t, reply) ==> rounds[0].word == reply
    requires FuzzerReply(f, Offer(t)).Replies? && forall i :: 0 <= i < |requests| ==> requests[i] <= 1
    requires Controls(Visible(Greeted(t, reply, chunks) + Traces(rounds))) == FuzzerReply(f, Offer(t)).words + requests
    ensures Requests(Exchanges(rounds)) == requests <==> !BareRefusal(t, f)
  {
    hide Carries, OffersExtras, Offer, FuzzerReply, Traces, Visible, Controls, Greeted, Linked;
    RequestsServed(t, reply, chunks, persistent, rounds);
    InStepUnlessBareRefusal(t, f, requests);
    assert |[ENABLED] + requests| == |requests| + 1;
  }

  lemma GreetedControls(t: Target, reply: U32, chunks: seq<Event>)
    requires AllChunks(chunks)
    ensures Controls(Visible(Greeted(t, reply, chunks))) == if OffersExtras(t) then [reply] else []
  {
    hide Carries, SendsDictionary, OffersExtras, Offer, Visible, Controls;
    var hello, more := [Out(Offer(t))], [In(reply)];
    var length := [Out(|t.dictionary| % TWO_32)];
    VisibleConcat(hello, more);
    VisibleConcat(hello + more, length + chunks);
    VisibleConcat(length, chunks);
    ChunksInvisible(chunks);
    OneWord(In(reply));
    OneWord(Out(Offer(t)));
    OneWord(Out(|t.dictionary| % TWO_32));
    assert length + [] == length;
    ControlsConcat(hello, more);
    ControlsConcat(hello + more, length);
    assert hello + more == [Out(Offer(t)), In(reply)];
    assert hello + more + (length + chunks) == [Out(Offer(t)), In(reply), Out(|t.dictionary| % TWO_32)] + chunks;
  }

  lemma {:induction false} ChunksInvisible(chunks: seq<Event>)
    requires AllChunks(chunks)
    ensures Visible(chunks) == []
  {
    if chunks != [] {
      assert chunks[0] in chunks;
      ChunksInvisible(chunks[1..]);
    }
  }

  lemma VisibleRound(r: Round)
    ensures (if r.read then [] else [In(r.word)]) + Visible(Trace(r)) == Said(r.Exchanged())
  {
    hide StatusWord, Begun, Visible, Stage;
    BegunTwo(r);
    BegunNext(r, 2);
    BegunNext(r, 3);
    BegunNext(r, 4);
    BegunNext(r, 5);
    VisibleConcat(Begun(r, 5), Stage(r, 5));
    VisibleConcat(Begun(r, 4), Stage(r, 4));
    VisibleConcat(Begun(r, 3), Stage(r, 3));
    VisibleConcat(Begun(r, 2), Stage(r, 2));
    VisibleConcat(Stage(r, 0), Stage(r, 1));
    VisibleStages(r);
  }

  lemma VisibleStages(r: Round)
    ensures Visible(Stage(r, 0)) == (if r.read then [In(r.word)] else []) && Visible(Stage(r, 1)) == []
    ensures Visible(Stage(r, 2)) == [] && Visible(Stage(r, 3)) == [Out(r.pid)]
    ensures Visible(Stage(r, 4)) == [] && Visible(Stage(r, 5)) == [Out(StatusWord(r.status))]
  {
    hide StatusWord, Visible;
    NoWord();
    OneWord(In(r.word));
    Hidden(if r.Resumes() then Continued(r.pid) else Forked(r.pid));
    OneWord(Out(r.pid));
    Hidden(Waited(r.pid, r.status));
    OneWord(Out(StatusWord(r.status)));
    if r.held.Some? { Hidden(Waited(r.held.value, r.dropped)); }
  }

  lemma TracesAppend(rounds: seq<Round>, r: Round)
    ensures Traces(rounds + [r]) == Traces(rounds) + Trace(r)
  {
    assert (rounds + [r])[..|rounds|] == rounds;
  }

  /** The stages of a round after its request was taken. */
  lemma BegunStaged(taken: Round, r: Round, log: seq<Event>, k: nat)
    requires r == taken.(pid := r.pid, status := r.status) && k <= 3
    ensures log + Begun(r, 3 + k) == log + Begun(taken, 2)
        + [if r.Resumes() then Continued(r.pid) else Forked(r.pid)]
        + [Out(r.pid), Waited(r.pid, r.status), Out(StatusWord(r.status))][..k]
  {
    hide StatusWord, Begun;
    var start := [if r.Resumes() then Continued(r.pid) else Forked(r.pid)];
    var rest := [Out(r.pid), Waited(r.pid, r.status), Out(StatusWord(r.status))];
    BegunTwo(r);
    BegunTwo(taken);
    BegunNext(r, 2);
    BegunRest(r, k);
    assert Begun(r, 3) == Begun(taken, 2) + start;
    assert log + (Begun(taken, 2) + start + rest[..k]) == log + Begun(taken, 2) + start + rest[..k];
  }

  lemma BegunRest(r: Round, k: nat)
    requires k <= 3
    ensures
      var rest := [Out(r.pid), Waited(r.pid, r.status), Out(StatusWord(r.status))];
      Begun(r, 3 + k) == Begun(r, 3) + rest[..k]
  {
    hide StatusWord, Begun;
    var a, b, c := Out(r.pid), Waited(r.pid, r.status), Out(StatusWord(r.status));
    assert [a, b, c][..0] == [] && [a, b, c][..1] == [a] && [a, b, c][..2] == [a] + [b];
    assert [a, b, c][..3] == [a] + [b] + [c];
    BegunNext(r, 3);
    BegunNext(r, 4);
    BegunNext(r, 5);
  }

  lemma BegunNext(r: Round, k: nat)
    ensures Begun(r, k + 1) == Begun(r, k) + Stage(r, k)
  {
  }

  lemma BegunTwo(r: Round)
    ensures Begun(r, 0) == [] && Begun(r, 1) == Stage(r, 0) && Begun(r, 2) == Stage(r, 0) + Stage(r, 1)
  {
    BegunNext(r, 0);
    BegunNext(r, 1);
  }
}
