/** The main loop (sqlsmith.cc): generate, execute, learn. */
module SmithRun {
  import opened Impedance
  import opened Machine
  import opened SmithAst
  import opened SmithScope
  import opened SmithSchema
  import opened SmithProd
  import opened SmithGen
  import opened SmithStmt
  import opened SmithMeasure

  /** Productions whose constructors ask match() or impedance::matched() first. */
  const GUARDED: set<string> := {
    "window_function", "atomic_subselect", "table_sample", "lateral_subquery", "insert_stmt",
    "upsert_stmt", "delete_returning", "update_returning", "merge_stmt"}

  /** One round: a statement, the productions the visitor came across in it, how
      execution ended, and the counters afterwards. */
  datatype Round = Round(stmt: Stmt, found: set<string>, success: bool, after: Counts)

  /** A round is possible from counters c. The visitor may skip parts of the tree,
      but finds no guarded production that is not there. */
  ghost predicate IsRound(schema: Schema, tables: seq<Relation>, c: Counts, r: Round) {
    && GoodStmt(Grammar(schema, c), tables, r.stmt)
    && r.found * GUARDED <= OfStmt(r.stmt).names
    && if r.success then Bumped(c.ok, r.found, r.after.ok) && r.after.failed == c.failed
       else Bumped(c.failed, r.found, r.after.failed) && r.after.ok == c.ok
  }

  /** The counters before round i. */
  function Before(start: Counts, rounds: seq<Round>, i: nat): Counts
    requires i <= |rounds|
  {
    if i == 0 then start else rounds[i - 1].after
  }

  ghost predicate IsRun(schema: Schema, tables: seq<Relation>, start: Counts, rounds: seq<Round>) {
    forall i :: 0 <= i < |rounds| ==> IsRound(schema, tables, Before(start, rounds, i), rounds[i])
  }

  /** In how many of the rounds a production was found, among those that ended well or badly. */
  function Tally(rounds: seq<Round>, name: string, success: bool): nat {
    if rounds == [] then 0
    else
      var last := rounds[|rounds| - 1];
      Tally(rounds[..|rounds| - 1], name, success) + if name in last.found && last.success == success then 1 else 0
  }

  /** The counters are what the rounds add up to. */
  lemma {:induction false} CountersTally(schema: Schema, tables: seq<Relation>, start: Counts, rounds: seq<Round>,
                                         name: string, n: nat)
    requires IsRun(schema, tables, start, rounds) && n <= |rounds|
    ensures
      var c := Before(start, rounds, n);
      && Count(c.failed, name) == Count(start.failed, name) + Tally(rounds[..n], name, false)
      && Count(c.ok, name) == Count(start.ok, name) + Tally(rounds[..n], name, true)
  {
    hide GoodStmt, OfStmt;
    hide IsRound, Tally;
    if n == 0 {
      NoTally(rounds[..0], name);
    } else {
      CountersTally(schema, tables, start, rounds, name, n - 1);
      TallyNext(rounds, name, n);
      OneRoundCounted(schema, tables, Before(start, rounds, n - 1), rounds[n - 1], name);
    }
  }

  lemma NoTally(rounds: seq<Round>, name: string)
    requires rounds == []
    ensures Tally(rounds, name, false) == Tally(rounds, name, true) == 0
  {
  }

  lemma OneRoundCounted(schema: Schema, tables: seq<Relation>, c: Counts, r: Round, name: string)
    requires IsRound(schema, tables, c, r)
    ensures Count(r.after.failed, name) == Count(c.failed, name) + if name in r.found && !r.success then 1 else 0
    ensures Count(r.after.ok, name) == Count(c.ok, name) + if name in r.found && r.success then 1 else 0
  {
    hide GoodStmt, OfStmt;
  }

  /**
    From empty counters, over every run: a guarded production is blacklisted
    exactly when it was found in at least 100 failed statements and in more than
    99 failed ones for every successful one.
   */
  lemma BlacklistedByTally(schema: Schema, tables: seq<Relation>, rounds: seq<Round>, name: string, n: nat)
    requires IsRun(schema, tables, Counts(map[], map[]), rounds) && n <= |rounds|
    ensures
      var bad, ok := Tally(rounds[..n], name, false), Tally(rounds[..n], name, true);
      !Matched(Before(Counts(map[], map[]), rounds, n), name) <==> bad >= 100 && bad > 99 * ok
  {
    hide IsRun, Matched, Tally;
    CountersTally(schema, tables, Counts(map[], map[]), rounds, name, n);
    BlacklistedWhen(Before(Counts(map[], map[]), rounds, n), name);
  }

  /**
    Blacklisting happens in one round: a failed one that brings the failures to
    100 or past 99 times the successes. Failures never exceed that.
   */
  lemma {:induction false} FailuresBounded(schema: Schema, tables: seq<Relation>, rounds: seq<Round>,
                                           name: string, n: nat)
    requires IsRun(schema, tables, Counts(map[], map[]), rounds) && n <= |rounds| && name in GUARDED
    ensures
      var start := Counts(map[], map[]);
      var bad, ok := Tally(rounds[..n], name, false), Tally(rounds[..n], name, true);
      && bad <= Max(100, 99 * ok + 1)
      && (!Matched(Before(start, rounds, n), name) <==> bad == Max(100, 99 * ok + 1))
      && (n > 0 && !Matched(Before(start, rounds, n), name) && Matched(Before(start, rounds, n - 1), name) ==>
            !rounds[n - 1].success && name in rounds[n - 1].found)
  {
    hide Matched, IsRun;
    var start := Counts(map[], map[]);
    BlacklistedByTally(schema, tables, rounds, name, n);
    if n > 0 {
      FailuresBounded(schema, tables, rounds, name, n - 1);
      BlacklistedByTally(schema, tables, rounds, name, n - 1);
      TallyNext(rounds, name, n);
      if !Matched(Before(start, rounds, n - 1), name) {
        CountersTally(schema, tables, start, rounds, name, n - 1);
        CountersTally(schema, tables, start, rounds, name, n);
        BlacklistedForever(schema, tables, start, rounds, name, n - 1, n);
      }
    }
  }

  lemma TallyNext(rounds: seq<Round>, name: string, n: nat)
    requires 0 < n <= |rounds|
    ensures forall success ::
      Tally(rounds[..n], name, success) == Tally(rounds[..n - 1], name, success)
        + if name in rounds[n - 1].found && rounds[n - 1].success == success then 1 else 0
  {
    assert rounds[..n][..n - 1] == rounds[..n - 1];
  }

  /** Once a guarded production is blacklisted it occurs in no later statement, so
      its counters stand still and it stays blacklisted, to the end of every run. */
  lemma {:induction false} BlacklistedForever(schema: Schema, tables: seq<Relation>, start: Counts, rounds: seq<Round>,
                                              name: string, i: nat, j: nat)
    requires IsRun(schema, tables, start, rounds)
    requires name in GUARDED && i <= j <= |rounds|
    requires !Matched(Before(start, rounds, i), name)
    ensures
      var c, d := Before(start, rounds, i), Before(start, rounds, j);
      && Count(d.failed, name) == Count(c.failed, name) && Count(d.ok, name) == Count(c.ok, name)
      && !Matched(d, name)
    ensures forall k :: i <= k < j ==> name !in OfStmt(rounds[k].stmt).names
    decreases j
  {
    hide IsRound, Matched, OfStmt;
    if i < j {
      BlacklistedForever(schema, tables, start, rounds, name, i, j - 1);
      BlacklistedOneRound(schema, tables, Before(start, rounds, j - 1), rounds[j - 1], name);
    }
  }

  lemma BlacklistedOneRound(schema: Schema, tables: seq<Relation>, c: Counts, r: Round, name: string)
    requires IsRound(schema, tables, c, r) && name in GUARDED && !Matched(c, name)
    ensures name !in OfStmt(r.stmt).names
    ensures Count(r.after.failed, name) == Count(c.failed, name) && Count(r.after.ok, name) == Count(c.ok, name)
    ensures !Matched(r.after, name)
  {
    hide GoodStmt, OfStmt;
    StatementFits(Grammar(schema, c), tables, r.stmt);
    assert name !in r.found;
  }

  /** What the visitor reports of a statement: anything that occurs in it, guarded
      or not, but perhaps not everything. */
  method Visit(s: Stmt) returns (found: set<string>)
    ensures found * GUARDED <= OfStmt(s).names
  {
    var skipped: set<string>, unguarded: set<string> := *, *;
    found := (OfStmt(s).names - skipped) + (unguarded - GUARDED);
  }

  /** The main loop for a number of queries; it ends early when the generator runs
      out of steps or trips over an assertion. */
  method MainLoop(schema: Schema, idx: Indexes, s: Scope, fb: Feedback, fuel: nat, maxQueries: nat)
    returns (rounds: seq<Round>, aborted: bool)
    requires IndexesOf(schema, idx) && s.Valid() && s.refs == []
    modifies s`stmtSeq, fb
    ensures IsRun(schema, s.tables, old(fb.Now()), rounds)
    ensures fb.Now() == Before(old(fb.Now()), rounds, |rounds|)
    ensures ExactTables(World(Grammar(schema, fb.Now()), idx), s.tables) ==> !aborted
  {
    hide IsRound, IsRun, IndexesOf, GoodStmt, ExactColumns, OfStmt, Bumped, Issued, StmtAliases, StmtSeq.Valid;
    rounds, aborted := [], false;
    NoRounds(schema, s.tables, fb.Now());
    for i := 0 to maxQueries
      invariant s.Valid() && !aborted
      invariant IsRun(schema, s.tables, old(fb.Now()), rounds)
      invariant fb.Now() == Before(old(fb.Now()), rounds, |rounds|)
    {
      var w := World(Grammar(schema, fb.Now()), idx);
      var gen := StatementFactory(w, fuel, s);
      if !gen.Ok? {
        aborted := gen.Abort?;
        return;
      }
      ghost var c := fb.Now();
      var found := Visit(gen.value);
      var success: bool := *;
      if success {
        fb.Executed(found);
      } else {
        fb.Error(found);
      }
      var round := Round(gen.value, found, success, fb.Now());
      RoundTaken(schema, s.tables, c, round);
      RunExtended(schema, s.tables, old(fb.Now()), rounds, round);
      rounds := rounds + [round];
    }
  }

  lemma NoRounds(schema: Schema, tables: seq<Relation>, start: Counts)
    ensures IsRun(schema, tables, start, [])
  {
  }

  lemma RoundTaken(schema: Schema, tables: seq<Relation>, c: Counts, r: Round)
    requires GoodStmt(Grammar(schema, c), tables, r.stmt) && r.found * GUARDED <= OfStmt(r.stmt).names
    requires if r.success then Bumped(c.ok, r.found, r.after.ok) && r.after.failed == c.failed
             else Bumped(c.failed, r.found, r.after.failed) && r.after.ok == c.ok
    ensures IsRound(schema, tables, c, r)
  {
  }

  lemma RunExtended(schema: Schema, tables: seq<Relation>, start: Counts, rounds: seq<Round>, next: Round)
    requires IsRun(schema, tables, start, rounds)
    requires IsRound(schema, tables, Before(start, rounds, |rounds|), next)
    ensures IsRun(schema, tables, start, rounds + [next])
  {
    hide IsRound;
    var more := rounds + [next];
    forall i | 0 <= i < |more|
      ensures IsRound(schema, tables, Before(start, more, i), more[i])
    {
      assert Before(start, more, i) == Before(start, rounds, i);
    }
  }
}
