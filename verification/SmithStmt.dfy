/** Top-level statements (grammar.cc). */
module SmithStmt {
  import opened Impedance
  import opened SmithAst
  import opened Options
  import opened SmithScope
  import opened SmithSchema
  import opened SmithProd
  import opened SmithGen

  /** All column types of a table are concrete. */
  ghost predicate ExactColumns(w: World, t: Table) {
    forall c :: c in t.columns ==> w.g.schema.Exact(c.ty)
  }

  ghost predicate ExactTables(w: World, tables: seq<Relation>) {
    forall t :: BaseRel(t) in tables ==> ExactColumns(w, t)
  }

  /** modifying_stmt::pick_victim(). */
  method PickVictim(self: Prod) returns (r: Result<Table>)
    modifies self`retries
    ensures r.Ok? || r.Fail?
    ensures r.Ok? ==> GoodVictim(self.scope.tables, r.value)
  {
    while true
      decreases self.retryLimit + 1 - self.retries
    {
      var pick :- Pick(self.scope.tables);
      var _ :- self.Retry();
      if pick.BaseRel? && pick.table.schema != "pg_catalog" && pick.table.baseTable && pick.table.columns != [] {
        return Ok(pick.table);
      }
    }
  }

  /** One value per column; a value of another type than its column fails the
      source's assertion. */
  method ColumnValues(w: World, fuel: nat, p: Prod, victim: Table) returns (r: Result<seq<Expr>>)
    requires w.Ok() && p.scope.Valid() && p.level <= 5
    modifies p`retries, p.scope.stmtSeq
    ensures Kept(p.scope)
    ensures r.Ok? ==> GoodValues(w.g, CtxOf(p), victim, r.value) && Named(p.scope, ExprsAliases(r.value))
    ensures ExactColumns(w, victim) ==> !r.Abort?
  {
    hide GoodExpr, ExprAliases, ExprsAliases, Issued, IndexesOf;
    var values := [];
    NoAliases();
    IssuedNone(p.scope.stmtSeq.issued, |p.scope.stmtSeq.issued|);
    for i := 0 to |victim.columns|
      invariant Kept(p.scope) && |values| == i && Named(p.scope, ExprsAliases(values))
      invariant forall j :: 0 <= j < i ==> GoodExpr(w.g, CtxOf(p), values[j]) && values[j].ty == victim.columns[j].ty
    {
      var col := victim.columns[i];
      ghost var mid := p.scope.stmtSeq.issued;
      var expr :- ValueFactory(w, fuel, p, Some(col.ty));
      if expr.ty != col.ty { return Abort; }
      ExprsIssued(values, expr, mid, p.scope.stmtSeq.issued, old(|p.scope.stmtSeq.issued|));
      values := values + [expr];
    }
    r := Ok(values);
  }

  /** set_list: columns are skipped at random, but not all of them. */
  method NewSetList(w: World, fuel: nat, p: Prod, target: Table) returns (r: Result<seq<Assignment>>)
    requires w.Ok() && p.scope.Valid() && p.level <= 5 && !Allowed(p)
    modifies p.scope.stmtSeq
    ensures Kept(p.scope) && !r.Abort?
    ensures r.Ok? ==> GoodSet(w.g, CtxOf(p).Down(), target, r.value) && Named(p.scope, SetAliases(r.value))
  {
    hide GoodExpr, ExprAliases, SetAliases, Issued, IndexesOf;
    var self := new Prod.Child(p, OtherKind);
    ghost var c := CtxOf(p).Down();
    assert CtxOf(self) == c;
    var setList: seq<Assignment> := [];
    NoSetAliases();
    IssuedNone(p.scope.stmtSeq.issued, |p.scope.stmtSeq.issued|);
    var rounds := fuel;
    while setList == []
      invariant Named(p.scope, SetAliases(setList))
      invariant Kept(p.scope) && forall a :: a in setList ==> GoodAssignment(w.g, c, target, a)
      decreases rounds
    {
      if rounds == 0 { return Stuck; }
      rounds := rounds - 1;
      for i := 0 to |target.columns|
        invariant Named(p.scope, SetAliases(setList))
        invariant Kept(p.scope) && forall a :: a in setList ==> GoodAssignment(w.g, c, target, a)
      {
        var d := D(6);
        if d < 4 { continue; }
        ghost var mid := p.scope.stmtSeq.issued;
        var expr :- ValueFactory(w, fuel, self, Some(target.columns[i].ty));
        SetIssued(setList, Assignment(target.columns[i], expr), mid, p.scope.stmtSeq.issued,
                  old(|p.scope.stmtSeq.issued|));
        setList := setList + [Assignment(target.columns[i], expr)];
      }
    }
    r := Ok(setList);
  }

  lemma NoSetAliases()
    ensures SetAliases([]) == multiset{}
  {
  }

  lemma SetIssued(setList: seq<Assignment>, a: Assignment, mid: seq<string>, issued: seq<string>, n: nat)
    requires Issued(SetAliases(setList), mid, n) && mid <= issued && Issued(ExprAliases(a.value), issued, |mid|)
    ensures Issued(SetAliases(setList + [a]), issued, n)
  {
    hide Issued, ExprAliases;
    IssuedBoth(SetAliases(setList), ExprAliases(a.value), mid, issued, n);
    assert (setList + [a])[..|setList|] == setList;
  }

  /** What every modifying statement starts with: its own scope and a victim. */
  method NewModifying(s: Scope) returns (self: Prod, r: Result<Table>)
    requires s.Valid()
    ensures self.level == 0 && self.laterals == 0 && self.kind == OtherKind
    ensures fresh(self) && fresh(self.scope) && self.scope.Valid()
    ensures self.scope.refs == s.refs && self.scope.tables == s.tables && self.scope.stmtSeq == s.stmtSeq
    ensures s.refs == [] ==> CtxOf(self) == Top(s.tables).Down()
    ensures r.Ok? || r.Fail?
    ensures r.Ok? ==> GoodVictim(s.tables, r.value)
  {
    var myscope := new Scope(s);
    self := new Prod.Scoped(null, OtherKind, myscope, 0);
    r := PickVictim(self);
  }

  /** The same for a statement that may name its victim. */
  method NewTargeting(s: Scope) returns (self: Prod, r: Result<Table>)
    requires s.Valid() && s.refs == []
    ensures self.level == 0 && self.laterals == 0 && self.kind == OtherKind
    ensures fresh(self) && fresh(self.scope) && self.scope.Valid()
    ensures self.scope.tables == s.tables && self.scope.stmtSeq == s.stmtSeq
    ensures r.Ok? || r.Fail?
    ensures r.Ok? ==> GoodVictim(s.tables, r.value)
    ensures r.Ok? ==> self.scope.refs == [BaseRel(r.value)]
    ensures r.Ok? ==> CtxOf(self) == Top(s.tables).With([BaseRel(r.value)]).Down()
  {
    self, r := NewModifying(s);
    if r.Ok? {
      self.scope.refs := self.scope.refs + [BaseRel(r.value)];
    }
  }

  /** What a statement method promises: a good tree whose aliases were issued meanwhile. */
  twostate predicate GoodResult(w: World, s: Scope, new r: Result<Stmt>)
    reads s, s.stmtSeq
  {
    && (r.Ok? ==> GoodTree(w.g, s.tables, r.value) && Named(s, StmtAliases(r.value)))
    && (ExactTables(w, s.tables) ==> !r.Abort?)
  }

  /** insert_stmt: one value per column of the victim. */
  method NewRow(w: World, fuel: nat, s: Scope) returns (self: Prod, r: Result<(Table, seq<Expr>)>)
    requires w.Ok() && s.Valid() && s.refs == []
    modifies s.stmtSeq
    ensures Kept(s) && self.scope.stmtSeq == s.stmtSeq && self.scope.Valid() && fresh(self) && fresh(self.scope)
    ensures self.level == 0 && self.kind == OtherKind && CtxOf(self) == Top(s.tables).Down()
    ensures r.Ok? ==> GoodVictim(s.tables, r.value.0) && Matched(w.g.counts, "insert_stmt")
    ensures r.Ok? ==> GoodValues(w.g, Top(s.tables).Down(), r.value.0, r.value.1)
    ensures r.Ok? ==> Named(s, ExprsAliases(r.value.1))
    ensures ExactTables(w, s.tables) ==> !r.Abort?
  {
    hide GoodValues, GoodVictim, ExprsAliases, Issued, IndexesOf, StmtSeq.Valid;
    var picked;
    self, picked := NewModifying(s);
    if picked.Fail? { return self, Fail; }
    var victim := picked.value;
    VictimExact(w, s.tables, victim);
    var matched := Match(w.g, "insert_stmt");
    if matched.Fail? { return self, Fail; }
    var values := ColumnValues(w, fuel, self, victim);
    r := if values.Ok? then Ok((victim, values.value)) else values.PropagateFailure();
  }

  method NewInsert(w: World, fuel: nat, s: Scope) returns (r: Result<Stmt>)
    requires w.Ok() && s.Valid() && s.refs == []
    modifies s.stmtSeq
    ensures Kept(s) && GoodResult(w, s, r)
    ensures r.Ok? ==> r.value.Insert?
  {
    hide GoodValues, ExprsAliases, Issued, IndexesOf;
    var _, made := NewRow(w, fuel, s);
    var row :- made;
    r := Ok(Insert(row.0, row.1));
  }

  /** upsert_stmt: an insert_stmt first, so both names are checked. */
  method NewUpsert(w: World, fuel: nat, s: Scope) returns (r: Result<Stmt>)
    requires w.Ok() && s.Valid() && s.refs == []
    modifies s.stmtSeq
    ensures Kept(s) && GoodResult(w, s, r)
    ensures r.Ok? ==> r.value.Upsert?
  {
    hide GoodTree, GoodExpr, GoodValues, GoodSet, GoodVictim, IndexesOf, StmtSeq.Valid;
    hide StmtAliases, ExprAliases, ExprsAliases, SetAliases, Issued;
    ghost var n := |s.stmtSeq.issued|;
    var self, made := NewRow(w, fuel, s);
    var row :- made;
    var victim, values := row.0, row.1;
    var _ :- Match(w.g, "upsert_stmt");
    if victim.constraints == [] { return Fail; }
    ghost var first := s.stmtSeq.issued;
    var setList :- NewSetList(w, fuel, self, victim);
    ghost var second := s.stmtSeq.issued;
    IssuedBoth(ExprsAliases(values), SetAliases(setList), first, second, n);
    var search :- BoolFactory(w, fuel, self);
    IssuedBoth(ExprsAliases(values) + SetAliases(setList), ExprAliases(search), second, s.stmtSeq.issued, n);
    UpsertGood(w.g, s.tables, victim, values, setList, search);
    r := Ok(Upsert(victim, values, setList, search));
  }

  lemma VictimExact(w: World, tables: seq<Relation>, victim: Table)
    requires GoodVictim(tables, victim)
    ensures ExactTables(w, tables) ==> ExactColumns(w, victim)
  {
  }

  lemma UpsertGood(g: Grammar, tables: seq<Relation>, victim: Table,
                   values: seq<Expr>, setList: seq<Assignment>, search: Expr)
    requires GoodVictim(tables, victim) && Matched(g.counts, "insert_stmt") && Matched(g.counts, "upsert_stmt")
    requires
      var c := Top(tables).Down();
      GoodValues(g, c, victim, values) && GoodSet(g, c.Down(), victim, setList) && GoodCondition(g, c, search)
    ensures
      var s := Upsert(victim, values, setList, search);
      && GoodTree(g, tables, s)
      && StmtAliases(s) == ExprsAliases(values) + SetAliases(setList) + ExprAliases(search)
  {
    hide GoodExpr, GoodValues, GoodSet, ExprAliases, ExprsAliases, SetAliases;
  }

  /** delete_returning: the victim is in scope. */
  method NewDeleteReturning(w: World, fuel: nat, s: Scope) returns (r: Result<Stmt>)
    requires w.Ok() && s.Valid() && s.refs == []
    modifies s.stmtSeq
    ensures Kept(s) && GoodResult(w, s, r)
    ensures r.Ok? ==> r.value.DeleteReturning?
  {
    hide GoodTree, GoodExpr, GoodVictim, IndexesOf, StmtSeq.Valid;
    hide StmtAliases, ExprAliases, ExprsAliases, Issued;
    ghost var n := |s.stmtSeq.issued|;
    var self, picked := NewTargeting(s);
    var victim :- picked;
    var search :- BoolFactory(w, fuel, self);
    var _ :- Match(w.g, "delete_returning");
    ghost var mid := s.stmtSeq.issued;
    var returning :- NewSelectList(w, fuel, self);
    IssuedBoth(ExprAliases(search), ExprsAliases(returning), mid, s.stmtSeq.issued, n);
    DeleteGood(w.g, s.tables, victim, search, returning);
    r := Ok(DeleteReturning(victim, search, returning));
  }

  lemma DeleteGood(g: Grammar, tables: seq<Relation>, victim: Table, search: Expr, returning: seq<Expr>)
    requires GoodVictim(tables, victim) && Matched(g.counts, "delete_returning")
    requires
      var c := Top(tables).With([BaseRel(victim)]).Down();
      GoodCondition(g, c, search) && GoodReturning(g, c.Down(), returning)
    ensures
      var s := DeleteReturning(victim, search, returning);
      GoodTree(g, tables, s) && StmtAliases(s) == ExprAliases(search) + ExprsAliases(returning)
  {
    hide GoodExpr, ExprAliases, ExprsAliases;
  }

  method NewUpdateReturning(w: World, fuel: nat, s: Scope) returns (r: Result<Stmt>)
    requires w.Ok() && s.Valid() && s.refs == []
    modifies s.stmtSeq
    ensures Kept(s) && GoodResult(w, s, r)
    ensures r.Ok? ==> r.value.UpdateReturning?
  {
    hide GoodTree, GoodExpr, GoodSet, GoodVictim, IndexesOf, StmtSeq.Valid;
    hide StmtAliases, ExprAliases, ExprsAliases, SetAliases, Issued;
    ghost var n := |s.stmtSeq.issued|;
    var self, picked := NewTargeting(s);
    var victim :- picked;
    var search :- BoolFactory(w, fuel, self);
    ghost var first := s.stmtSeq.issued;
    var setList :- NewSetList(w, fuel, self, victim);
    ghost var second := s.stmtSeq.issued;
    IssuedBoth(ExprAliases(search), SetAliases(setList), first, second, n);
    var _ :- Match(w.g, "update_returning");
    var returning :- NewSelectList(w, fuel, self);
    IssuedBoth(ExprAliases(search) + SetAliases(setList), ExprsAliases(returning), second, s.stmtSeq.issued, n);
    UpdateGood(w.g, s.tables, victim, search, setList, returning);
    r := Ok(UpdateReturning(victim, search, setList, returning));
  }

  lemma UpdateGood(g: Grammar, tables: seq<Relation>, victim: Table,
                   search: Expr, setList: seq<Assignment>, returning: seq<Expr>)
    requires GoodVictim(tables, victim) && Matched(g.counts, "update_returning")
    requires
      var c := Top(tables).With([BaseRel(victim)]).Down();
      && GoodCondition(g, c, search) && GoodSet(g, c.Down(), victim, setList)
      && GoodReturning(g, c.Down(), returning)
    ensures
      var s := UpdateReturning(victim, search, setList, returning);
      && GoodTree(g, tables, s)
      && StmtAliases(s) == ExprAliases(search) + SetAliases(setList) + ExprsAliases(returning)
  {
    hide GoodExpr, GoodSet, ExprAliases, ExprsAliases, SetAliases;
  }

  // ---- Merge ----

  method TryWhen(w: World, fuel: nat, p: Prod, victim: Table, target: Relation) returns (r: Result<When>)
    requires w.Ok() && p.scope.Valid() && p.level == 0 && p.kind == OtherKind && p.scope.refs == []
    requires Renames(target, victim.columns) && Known(target, p.scope.stmtSeq.issued)
    modifies p.scope.stmtSeq
    ensures Kept(p.scope)
    ensures r.Ok? ==> GoodWhen(w.g, CtxOf(p), victim, target, r.value) && Named(p.scope, WhenAliases(r.value))
    ensures ExactColumns(w, victim) ==> !r.Abort?
  {
    hide GoodExpr, GoodSet, GoodValues, ExprAliases, ExprsAliases, SetAliases, Issued, IndexesOf, Scope.Valid;
    ghost var n := |p.scope.stmtSeq.issued|;
    var self := new Prod.Child(p, OtherKind);
    ghost var c := CtxOf(p);
    assert CtxOf(self) == c.Down();
    var condition :- BoolFactory(w, fuel, self);
    ghost var mid := p.scope.stmtSeq.issued;
    var d := D(6);
    if d <= 2 {
      var values :- ColumnValues(w, fuel, self, victim);
      IssuedBoth(ExprAliases(condition), ExprsAliases(values), mid, p.scope.stmtSeq.issued, n);
      r := Ok(WhenInsert(condition, values));
    } else if d <= 4 {
      var setList :- NewWhenSet(w, fuel, p, victim, target);
      IssuedBoth(ExprAliases(condition), SetAliases(setList), mid, p.scope.stmtSeq.issued, n);
      r := Ok(WhenUpdate(condition, setList));
    } else {
      r := Ok(WhenPlain(condition));
    }
  }

  /** The set_list of a WHEN clause, which also sees the target. */
  method NewWhenSet(w: World, fuel: nat, p: Prod, victim: Table, target: Relation) returns (r: Result<seq<Assignment>>)
    requires w.Ok() && p.scope.Valid() && p.level == 0 && p.kind == OtherKind && p.scope.refs == []
    requires Renames(target, victim.columns) && Known(target, p.scope.stmtSeq.issued)
    modifies p.scope.stmtSeq
    ensures Kept(p.scope) && !r.Abort?
    ensures r.Ok? ==> GoodSet(w.g, CtxOf(p).With([target]).Down().Down(), victim, r.value)
    ensures r.Ok? ==> Named(p.scope, SetAliases(r.value))
  {
    hide GoodSet, SetAliases, Issued, IndexesOf, StmtSeq.Valid;
    var myscope := new Scope(p.scope);
    myscope.refs := myscope.refs + [target];
    var inner := new Prod.Scoped(p, OtherKind, myscope, p.laterals);
    assert CtxOf(inner) == CtxOf(p).With([target]).Down();
    r := NewSetList(w, fuel, inner, victim);
  }

  /** when_clause::factory(). */
  method WhenFactory(w: World, fuel: nat, p: Prod, victim: Table, target: Relation) returns (r: Result<When>)
    requires w.Ok() && p.scope.Valid() && p.level == 0 && p.kind == OtherKind && p.scope.refs == []
    requires Renames(target, victim.columns) && Known(target, p.scope.stmtSeq.issued)
    modifies p`retries, p.scope.stmtSeq
    ensures Kept(p.scope)
    ensures r.Ok? ==> GoodWhen(w.g, CtxOf(p), victim, target, r.value) && Named(p.scope, WhenAliases(r.value))
    ensures ExactColumns(w, victim) ==> !r.Abort?
    decreases fuel
  {
    hide GoodWhen, WhenAliases, Issued, IndexesOf;
    if fuel == 0 { return Stuck; }
    r := TryWhen(w, fuel - 1, p, victim, target);
    if r.Fail? {
      var _ :- p.Retry();
      ghost var n, m := old(|p.scope.stmtSeq.issued|), |p.scope.stmtSeq.issued|;
      r := WhenFactory(w, fuel - 1, p, victim, target);
      if r.Ok? { IssuedSince(WhenAliases(r.value), p.scope.stmtSeq.issued, n, m); }
    }
  }

  /** Target, data source and join condition of a MERGE. */
  ghost predicate GoodSources(g: Grammar, c: Ctx, victim: Table, target: Relation, source: TableRef, cond: JoinCond) {
    && Renames(target, victim.columns)
    && GoodTableRef(g, c.Down(), source)
    && cond.SimpleCond? && GoodCond(g, c.Down(), [target], Refs(source), cond)
  }

  method NewMergeSources(w: World, fuel: nat, self: Prod, victim: Table)
    returns (r: Result<(Relation, TableRef, JoinCond)>)
    requires w.Ok() && self.scope.Valid() && self.level == 0 && self.laterals == 0
    requires self.kind == OtherKind && self.scope.refs == []
    modifies self`retries, self.scope.stmtSeq
    ensures Kept(self.scope) && !r.Abort?
    ensures r.Ok? ==>
      && GoodSources(w.g, Top(self.scope.tables), victim, r.value.0, r.value.1, r.value.2)
      && Known(r.value.0, self.scope.stmtSeq.issued)
      && Named(self.scope, AliasOf(r.value.0) + TableAliases(r.value.1) + CondAliases(r.value.2))
  {
    hide GoodTableRef, GoodCond, Issued, TableAliases, IndexesOf;
    ghost var s := self.scope.stmtSeq;
    ghost var n := |s.issued|;
    var alias := NewAlias(self.scope, "target");
    var target := AliasedRel(alias, victim.columns);
    NewestRef(target, s.issued, n);
    ghost var m, left := |s.issued|, s.issued;
    IssuedLast(alias, old(self.scope.stmtSeq.issued), left);
    var source :- TableRefFactory(w, fuel, self);
    assert s.issued[..m] == left;
    NewRefsJoined([target], Refs(source), s.issued, n, m);
    IssuedBoth(AliasOf(target), TableAliases(source), left, s.issued, n);
    ghost var refs := [target] + Refs(source);
    assert self.scope.refs + refs == refs;
    var cond :- NewSimpleJoinCond(w, self, [target], Refs(source));
    assert CtxOf(self) == Top(self.scope.tables).Down();
    assert AliasOf(target) + TableAliases(source) + CondAliases(cond) == AliasOf(target) + TableAliases(source);
    r := Ok((target, source, cond));
  }

  method NewMerge(w: World, fuel: nat, s: Scope) returns (r: Result<Stmt>)
    requires w.Ok() && s.Valid() && s.refs == []
    modifies s.stmtSeq
    ensures Kept(s) && GoodResult(w, s, r)
    ensures r.Ok? ==> r.value.Merge?
  {
    hide GoodTree, GoodSources, GoodWhen, GoodVictim, IndexesOf, StmtSeq.Valid;
    hide StmtAliases, TableAliases, CondAliases, WhensAliases, Issued;
    ghost var n := |s.stmtSeq.issued|;
    var self, picked := NewModifying(s);
    var victim :- picked;
    VictimExact(w, s.tables, victim);
    var _ :- Match(w.g, "merge_stmt");
    var parts :- NewMergeSources(w, fuel, self, victim);
    SourcesRename(w.g, Top(s.tables), victim, parts.0, parts.1, parts.2);
    ghost var mid := s.stmtSeq.issued;
    var clauses :- NewWhenClauses(w, fuel, self, victim, parts.0);
    IssuedBoth(AliasOf(parts.0) + TableAliases(parts.1) + CondAliases(parts.2), WhensAliases(clauses),
               mid, s.stmtSeq.issued, n);
    MergeGood(w.g, s.tables, victim, parts.0, parts.1, parts.2, clauses);
    r := Ok(Merge(victim, parts.0, parts.1, parts.2, clauses));
  }

  lemma SourcesRename(g: Grammar, c: Ctx, victim: Table, target: Relation, source: TableRef, cond: JoinCond)
    requires GoodSources(g, c, victim, target, source, cond)
    ensures Renames(target, victim.columns)
  {
  }

  lemma MergeGood(g: Grammar, tables: seq<Relation>, victim: Table,
                  target: Relation, source: TableRef, cond: JoinCond, clauses: seq<When>)
    requires GoodVictim(tables, victim) && Matched(g.counts, "merge_stmt")
    requires GoodSources(g, Top(tables), victim, target, source, cond)
    requires clauses != [] && forall x :: x in clauses ==> GoodWhen(g, Top(tables).Down(), victim, target, x)
    ensures
      var s := Merge(victim, target, source, cond, clauses);
      && GoodTree(g, tables, s)
      && StmtAliases(s) == AliasOf(target) + TableAliases(source) + CondAliases(cond) + WhensAliases(clauses)
  {
    hide GoodTableRef, GoodCond, GoodWhen, TableAliases, CondAliases, WhensAliases;
  }

  method NewWhenClauses(w: World, fuel: nat, p: Prod, victim: Table, target: Relation) returns (r: Result<seq<When>>)
    requires w.Ok() && p.scope.Valid() && p.level == 0 && p.kind == OtherKind && p.scope.refs == []
    requires Renames(target, victim.columns) && Known(target, p.scope.stmtSeq.issued)
    modifies p`retries, p.scope.stmtSeq
    ensures Kept(p.scope)
    ensures r.Ok? ==> r.value != [] && forall x :: x in r.value ==> GoodWhen(w.g, CtxOf(p), victim, target, x)
    ensures r.Ok? ==> Named(p.scope, WhensAliases(r.value))
    ensures ExactColumns(w, victim) ==> !r.Abort?
  {
    hide GoodWhen, WhenAliases, WhensAliases, Issued, IndexesOf;
    var first :- WhenFactory(w, fuel, p, victim, target);
    var clauses := [first];
    WhensOne(first);
    var k := Repeats();
    for i := 0 to k
      invariant Kept(p.scope) && Named(p.scope, WhensAliases(clauses))
      invariant clauses != [] && forall x :: x in clauses ==> GoodWhen(w.g, CtxOf(p), victim, target, x)
    {
      ghost var mid := p.scope.stmtSeq.issued;
      var next :- WhenFactory(w, fuel, p, victim, target);
      WhensIssued(clauses, next, mid, p.scope.stmtSeq.issued, old(|p.scope.stmtSeq.issued|));
      clauses := clauses + [next];
    }
    r := Ok(clauses);
  }

  lemma WhensOne(x: When)
    ensures WhensAliases([x]) == WhenAliases(x)
  {
    hide WhenAliases;
    assert [x][..0] == [];
  }

  lemma WhensIssued(ws: seq<When>, x: When, mid: seq<string>, issued: seq<string>, n: nat)
    requires Issued(WhensAliases(ws), mid, n) && mid <= issued && Issued(WhenAliases(x), issued, |mid|)
    ensures Issued(WhensAliases(ws + [x]), issued, n)
  {
    hide Issued, WhenAliases;
    IssuedBoth(WhensAliases(ws), WhenAliases(x), mid, issued, n);
    assert (ws + [x])[..|ws|] == ws;
  }

  // ---- Queries at the top ----

  method NewSelect(w: World, fuel: nat, s: Scope) returns (r: Result<Stmt>)
    requires w.Ok() && s.Valid() && s.refs == []
    modifies s.stmtSeq
    ensures Kept(s) && GoodResult(w, s, r)
    ensures r.Ok? ==> r.value.Select?
  {
    hide GoodQuery, QueryAliases, Issued, IndexesOf;
    var query :- NewQuerySpec(w, fuel, null, s, Top(s.tables));
    r := Ok(Select(query));
  }

  /** The WITH queries of a common_table_expression and their aliases. */
  ghost predicate GoodWith(g: Grammar, tables: seq<Relation>, queries: seq<Query>, refs: seq<Relation>) {
    && queries != [] && |refs| == |queries|
    && forall i :: 0 <= i < |queries| ==>
         GoodQuery(g, Top(tables).Down(), queries[i]) && Renames(refs[i], DerivedColumns(queries[i].select))
  }

  /** The WITH queries; each alias joins the tables of the scope. */
  method NewWithQueries(w: World, fuel: nat, self: Prod, s: Scope) returns (r: Result<(seq<Query>, seq<Relation>)>)
    requires w.Ok() && s.Valid() && s.refs == [] && self.level == 0
    requires self.scope != s && self.scope.tables == s.tables && self.scope.stmtSeq == s.stmtSeq
    modifies s.stmtSeq, self.scope`tables
    ensures Kept(s) && !r.Abort?
    ensures r.Ok? ==> GoodWith(w.g, s.tables, r.value.0, r.value.1) && self.scope.tables == s.tables + r.value.1
    ensures r.Ok? ==> Named(s, QueriesAliases(r.value.0) + RefsAliases(r.value.1))
  {
    hide GoodQuery, DerivedColumns, QueryAliases, QueriesAliases, RefsAliases, Issued, IndexesOf;
    var queries: seq<Query>, refs: seq<Relation> := [], [];
    NoWithAliases(s.stmtSeq.issued);
    var k := Repeats();
    for i := 0 to k + 1
      invariant Named(s, QueriesAliases(queries) + RefsAliases(refs))
      invariant Kept(s) && self.scope.tables == s.tables + refs
      invariant i == |queries| == |refs|
      invariant queries != [] ==> GoodWith(w.g, s.tables, queries, refs)
    {
      ghost var first := s.stmtSeq.issued;
      var query :- NewQuerySpec(w, fuel, self, s, Top(s.tables).Down());
      ghost var second := s.stmtSeq.issued;
      var alias := s.stmtSeq.Uid("jennifer");
      var ref := AliasedRel(alias, DerivedColumns(query.select));
      WithIssued(queries, refs, query, ref, first, second, s.stmtSeq.issued, old(|s.stmtSeq.issued|));
      queries, refs := queries + [query], refs + [ref];
      self.scope.tables := self.scope.tables + [ref];
    }
    r := Ok((queries, refs));
  }

  lemma NoWithAliases(issued: seq<string>)
    ensures Issued(QueriesAliases([]) + RefsAliases([]), issued, |issued|)
  {
  }

  lemma WithIssued(qs: seq<Query>, refs: seq<Relation>, q: Query, ref: Relation,
                   first: seq<string>, second: seq<string>, issued: seq<string>, n: nat)
    requires Issued(QueriesAliases(qs) + RefsAliases(refs), first, n) && first <= second
    requires Issued(QueryAliases(q), second, |first|) && ref.AliasedRel? && issued == second + [ref.alias]
    ensures Issued(QueriesAliases(qs + [q]) + RefsAliases(refs + [ref]), issued, n)
  {
    hide Issued, QueryAliases;
    IssuedLast(ref.alias, second, issued);
    IssuedBoth(QueriesAliases(qs) + RefsAliases(refs), QueryAliases(q), first, second, n);
    IssuedBoth(QueriesAliases(qs) + RefsAliases(refs) + QueryAliases(q), AliasOf(ref), second, issued, n);
    assert (qs + [q])[..|qs|] == qs && (refs + [ref])[..|refs|] == refs;
    assert QueriesAliases(qs + [q]) + RefsAliases(refs + [ref]) ==
      QueriesAliases(qs) + RefsAliases(refs) + QueryAliases(q) + AliasOf(ref);
  }

  /** Throws more of the outer tables in. */
  method PickMore(s: Scope) returns (r: Result<seq<Relation>>)
    ensures r.Ok? || r.Fail?
    ensures r.Ok? ==> r.value != [] && forall x :: x in r.value ==> x in s.tables
  {
    var more: seq<Relation> := [];
    var k := Repeats();
    for i := 0 to k + 1
      invariant |more| == i && forall x :: x in more ==> x in s.tables
    {
      var pick :- Pick(s.tables);
      more := more + [pick];
    }
    r := Ok(more);
  }

  /** The query proper: failures are caught here and more tables are added. */
  method NewFinalQuery(w: World, fuel: nat, self: Prod, s: Scope, ghost base: seq<Relation>)
    returns (r: Result<Query>, ghost more: seq<Relation>)
    requires w.Ok() && s.Valid() && self.scope.Valid() && self.scope.refs == [] && self.level == 0
    requires self.scope != s && self.scope.tables == base
    modifies self.scope.stmtSeq, self.scope`tables, self`retries
    ensures Kept(self.scope) && !r.Abort?
    ensures r.Ok? ==> (forall x :: x in more ==> x in s.tables) && GoodQuery(w.g, Top(base + more).Down(), r.value)
    ensures r.Ok? ==> Named(self.scope, QueryAliases(r.value))
  {
    hide GoodQuery, QueryAliases, Issued, IndexesOf;
    more := [];
    while true
      invariant Kept(self.scope) && self.scope.tables == base + more
      invariant forall x :: x in more ==> x in s.tables
      decreases self.retryLimit + 1 - self.retries
    {
      var picks := PickMore(s);
      if !picks.Ok? { return Fail, more; }
      more := more + picks.value;
      self.scope.tables := self.scope.tables + picks.value;
      assert self.scope.tables == base + more;
      ghost var n, m := old(|self.scope.stmtSeq.issued|), |self.scope.stmtSeq.issued|;
      r := NewQuerySpec(w, fuel, self, self.scope, Top(self.scope.tables).Down());
      if r.Ok? { IssuedSince(QueryAliases(r.value), self.scope.stmtSeq.issued, n, m); }
      if !r.Fail? { return; }
      var again := self.Retry();
      if again.Fail? { return Fail, more; }
    }
  }

  /** common_table_expression: the final query may also name the WITH queries. */
  method NewCommonTableExpression(w: World, fuel: nat, s: Scope) returns (r: Result<Stmt>)
    requires w.Ok() && s.Valid() && s.refs == []
    modifies s.stmtSeq
    ensures Kept(s) && GoodResult(w, s, r)
    ensures r.Ok? ==> r.value.With?
  {
    hide GoodQuery, DerivedColumns, QueryAliases, QueriesAliases, RefsAliases, Issued, IndexesOf;
    var myscope := new Scope(s);
    var self := new Prod.Scoped(null, OtherKind, myscope, 0);
    var pair :- NewWithQueries(w, fuel, self, s);
    var queries, refs := pair.0, pair.1;
    ghost var mid := s.stmtSeq.issued;
    var final, more := NewFinalQuery(w, fuel, self, s, s.tables + refs);
    var query :- final;
    IssuedBoth(QueriesAliases(queries) + RefsAliases(refs), QueryAliases(query),
               mid, s.stmtSeq.issued, old(|s.stmtSeq.issued|));
    assert Top(s.tables + refs + more).Down() == Top(s.tables).(tables := s.tables + refs + more).Down();
    r := Ok(With(queries, refs, query));
  }

  /** statement_factory(): every attempt starts with fresh name counters. */
  method StatementFactory(w: World, fuel: nat, s: Scope) returns (r: Result<Stmt>)
    requires w.Ok() && s.Valid() && s.refs == []
    modifies s`stmtSeq
    ensures s.Valid() && Distinct(s.stmtSeq.issued)
    ensures r.Ok? ==> GoodStmt(w.g, s.tables, r.value) && Issued(StmtAliases(r.value), s.stmtSeq.issued, 0)
    ensures !r.Fail? && (ExactTables(w, s.tables) ==> !r.Abort?)
    decreases fuel
  {
    hide GoodTree, StmtAliases, Issued, IndexesOf;
    if fuel == 0 { return Stuck; }
    s.NewStmt();
    r := TryStatement(w, fuel - 1, s);
    if r.Ok? {
      forall alias: string ensures StmtAliases(r.value)[alias] <= 1 {
        IssuedOnce(StmtAliases(r.value), s.stmtSeq.issued, alias);
      }
    }
    if r.Fail? {
      r := StatementFactory(w, fuel - 1, s);
    }
  }

  method TryStatement(w: World, fuel: nat, s: Scope) returns (r: Result<Stmt>)
    requires w.Ok() && s.Valid() && s.refs == []
    modifies s.stmtSeq
    ensures Kept(s) && GoodResult(w, s, r)
  {
    hide GoodTree, StmtAliases, Issued, IndexesOf;
    var d := D(42);
    if d == 1 { r := NewMerge(w, fuel, s); return; }
    d := D(42);
    if d == 1 { r := NewInsert(w, fuel, s); return; }
    d := D(42);
    if d == 1 { r := NewDeleteReturning(w, fuel, s); return; }
    d := D(42);
    if d == 1 { r := NewUpsert(w, fuel, s); return; }
    d := D(42);
    if d == 1 { r := NewUpdateReturning(w, fuel, s); return; }
    d := D(6);
    if d > 4 { r := NewSelect(w, fuel, s); return; }
    d := D(6);
    if d > 5 { r := NewCommonTableExpression(w, fuel, s); return; }
    r := NewSelect(w, fuel, s);
  }
}
