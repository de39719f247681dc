/**
  What a fuzzer and its target say to each other over the two fork-server
  pipes, and what the target's side does to its child processes meanwhile.
 */
module Pipe {
  import opened Machine

  /** How a waited-for child ended or stopped. */
  datatype WaitStatus = Exited(code: U8) | Signaled(signal: nat, core: bool) | Paused(signal: nat)

  predicate Sane(s: WaitStatus) {
    match s
    case Exited(_) => true
    case Signaled(signal, _) => 0 < signal <= 64
    case Paused(signal) => 0 < signal <= 64
  }

  type Status = s: WaitStatus | Sane(s) witness Exited(0)

  /** The status word waitpid() fills in. */
  function StatusWord(s: Status): U32 {
    match s
    case Exited(code) => 0x100 * code
    case Signaled(signal, core) => signal + if core then 0x80 else 0
    case Paused(signal) => 0x100 * signal + 0x7f
  }

  predicate WIfStopped(w: U32) { w % 0x100 == 0x7f }

  predicate WIfSignaled(w: U32) { 0 < w % 0x80 < 0x7f }

  predicate WIfExited(w: U32) { w % 0x80 == 0 }

  function WExitStatus(w: U32): U8 { w / 0x100 % 0x100 }

  /** The status macros tell the three kinds of status apart. */
  lemma StatusWordRead(s: Status)
    ensures WIfStopped(StatusWord(s)) <==> s.Paused?
    ensures WIfSignaled(StatusWord(s)) <==> s.Signaled?
    ensures WIfExited(StatusWord(s)) <==> s.Exited?
    ensures s.Exited? ==> WExitStatus(StatusWord(s)) == s.code
  {
  }

  /** In and Out are seen by the fuzzer; the others are the target's own. */
  datatype Event =
    | In(word: U32)
    | Out(word: U32)
    | Chunk(bytes: Bytes)
    | Forked(pid: U32)
    | Continued(pid: U32)
    | Waited(pid: U32, status: Status)
    | Loaded(length: int)
    | Translated(ok: bool)
    | Executed(crashed: bool)

  /** The four-byte words on the pipes. */
  function Visible(log: seq<Event>): (v: seq<Event>) {
    if log == [] then []
    else (if log[0].In? || log[0].Out? then [log[0]] else []) + Visible(log[1..])
  }

  lemma VisibleFirst(v: seq<Event>)
    ensures Visible(v) ==
      if v == [] then [] else (if v[0].In? || v[0].Out? then [v[0]] else []) + Visible(v[1..])
  {
  }

  lemma {:induction false} VisibleConcat(a: seq<Event>, b: seq<Event>)
    ensures Visible(a + b) == Visible(a) + Visible(b)
  {
    hide Visible;
    VisibleFirst(a);
    if a == [] {
      assert a + b == b;
    } else {
      VisibleFirst(a + b);
      assert (a + b)[0] == a[0] && (a + b)[1..] == a[1..] + b;
      VisibleConcat(a[1..], b);
      Associative(if a[0].In? || a[0].Out? then [a[0]] else [], Visible(a[1..]), Visible(b));
    }
  }

  /** The control words among the words on the pipes. */
  function Controls(v: seq<Event>): seq<U32> {
    if v == [] then [] else (if v[0].In? then [v[0].word] else []) + Controls(v[1..])
  }

  lemma ControlsFirst(v: seq<Event>)
    ensures Controls(v) == if v == [] then [] else (if v[0].In? then [v[0].word] else []) + Controls(v[1..])
  {
  }

  lemma {:induction false} ControlsConcat(a: seq<Event>, b: seq<Event>)
    ensures Controls(a + b) == Controls(a) + Controls(b)
  {
    hide Controls;
    ControlsFirst(a);
    if a == [] {
      assert a + b == b;
    } else {
      ControlsFirst(a + b);
      assert (a + b)[0] == a[0] && (a + b)[1..] == a[1..] + b;
      ControlsConcat(a[1..], b);
      Associative(if a[0].In? then [a[0].word] else [], Controls(a[1..]), Controls(b));
    }
  }

  /** A single word on a pipe. */
  lemma OneWord(e: Event)
    requires e.In? || e.Out?
    ensures Visible([e]) == [e] && Controls([e]) == if e.In? then [e.word] else []
  {
    assert [e][1..] == [];
  }

  lemma NoWord()
    ensures Visible([]) == [] && Controls([]) == []
  {
  }

  lemma Hidden(e: Event)
    requires !e.In? && !e.Out?
    ensures Visible([e]) == []
  {
    assert [e][1..] == [];
  }

  /** One request: a control word, the word that starts the run, the word that ends it. */
  datatype Exchange = Exchange(request: U32, started: U32, ended: U32)

  function Said(x: Exchange): seq<Event> {
    [In(x.request), Out(x.started), Out(x.ended)]
  }

  /** Requests served one after the other. */
  function Conversation(xs: seq<Exchange>): seq<Event> {
    if xs == [] then [] else Conversation(xs[..|xs| - 1]) + Said(xs[|xs| - 1])
  }

  function Requests(xs: seq<Exchange>): seq<U32> {
    seq(|xs|, i requires 0 <= i < |xs| => xs[i].request)
  }

  /** A conversation has exactly one control word per request. */
  lemma {:induction false} ConversationControls(xs: seq<Exchange>)
    ensures Controls(Conversation(xs)) == Requests(xs)
  {
    if xs == [] {
    } else {
      var k := |xs| - 1;
      ConversationControls(xs[..k]);
      ControlsConcat(Conversation(xs[..k]), Said(xs[k]));
      SaidControls(xs[k]);
      assert Requests(xs) == Requests(xs[..k]) + [xs[k].request];
    }
  }

  lemma SaidControls(x: Exchange)
    ensures Controls(Said(x)) == [x.request]
  {
    assert Said(x) == [In(x.request)] + [Out(x.started)] + [Out(x.ended)];
    ControlsConcat([In(x.request)], [Out(x.started)]);
    ControlsConcat([In(x.request)] + [Out(x.started)], [Out(x.ended)]);
  }

  /** Children that were forked and not yet reaped. */
  function Step(live: set<U32>, e: Event): set<U32> {
    match e
    case Forked(pid) => live + {pid}
    case Waited(pid, status) => if status.Paused? then live else live - {pid}
    case _ => live
  }

  function Live(live: set<U32>, log: seq<Event>): set<U32>
    decreases |log|
  {
    if log == [] then live else Live(Step(live, log[0]), log[1..])
  }

  lemma {:induction false} LiveConcat(live: set<U32>, a: seq<Event>, b: seq<Event>)
    ensures Live(live, a + b) == Live(Live(live, a), b)
    decreases |a|
  {
    if a == [] {
      assert a + b == b;
    } else {
      LiveConcat(Step(live, a[0]), a[1..], b);
      assert (a + b)[0] == a[0] && (a + b)[1..] == a[1..] + b;
    }
  }

  lemma LiveAppend(live: set<U32>, log: seq<Event>, e: Event)
    ensures Live(live, log + [e]) == Step(Live(live, log), e)
  {
    LiveConcat(live, log, [e]);
    assert [e][1..] == [];
  }

  /** At no moment is there more than one unreaped child. */
  ghost predicate AtMostOneChild(live: set<U32>, log: seq<Event>) {
    forall k :: 0 <= k <= |log| ==> |Live(live, log[..k])| <= 1
  }

  lemma AtMostOneConcat(live: set<U32>, a: seq<Event>, b: seq<Event>)
    requires AtMostOneChild(live, a) && AtMostOneChild(Live(live, a), b)
    ensures AtMostOneChild(live, a + b)
  {
    forall k | 0 <= k <= |a + b|
      ensures |Live(live, (a + b)[..k])| <= 1
    {
      if k <= |a| {
        assert (a + b)[..k] == a[..k];
      } else {
        assert (a + b)[..k] == a + b[..k - |a|];
        LiveConcat(live, a, b[..k - |a|]);
      }
    }
  }

  lemma AtMostOneAppend(live: set<U32>, log: seq<Event>, e: Event)
    requires AtMostOneChild(live, log) && |Step(Live(live, log), e)| <= 1
    ensures AtMostOneChild(live, log + [e])
  {
    forall k | 0 <= k <= |log| + 1
      ensures |Live(live, (log + [e])[..k])| <= 1
    {
      if k <= |log| {
        assert (log + [e])[..k] == log[..k];
      } else {
        assert (log + [e])[..k] == log + [e];
        LiveAppend(live, log, e);
      }
    }
  }
}
