/**
  The grammar (expr.cc, grammar.cc): each constructor and factory as a method that
  may roll any dice, fail, be retried and roll again. Whatever the dice, a tree
  that comes out is good at its position.

  Every factory takes a budget of steps, so that a run is finite; the results hold
  for every budget.
 */
module SmithGen {
  import opened Impedance
  import opened SmithAst
  import opened Options
  import opened SmithScope
  import opened SmithSchema
  import opened SmithProd

  /** Grammar and indexes of the database at hand. */
  datatype World = World(g: Grammar, idx: Indexes) {
    ghost predicate Ok() { IndexesOf(g.schema, idx) }
  }

  /** Names accumulate; nothing else about the scope changes. */
  twostate predicate Kept(s: Scope)
    reads s, s.stmtSeq
  {
    && s.Valid() && s.stmtSeq == old(s.stmtSeq)
    && old(s.stmtSeq.issued) <= s.stmtSeq.issued
  }

  /** All these names were issued meanwhile, and none is used twice. */
  twostate predicate Named(s: Scope, names: multiset<string>)
    reads s, s.stmtSeq
  {
    Issued(names, s.stmtSeq.issued, old(|s.stmtSeq.issued|))
  }

  /** An expression generated under a type constraint. */
  ghost predicate GoodValue(w: World, c: Ctx, tc: Option<TypeId>, r: Result<Expr>) {
    && !r.Abort?
    && (r.Ok? ==> GoodExpr(w.g, c, r.value))
    && (r.Ok? && tc.Some? && w.g.schema.Exact(tc.value) ==> r.value.ty == tc.value)
  }

  // ---- Value expressions without children ----

  /** scope::refs_of_type(). */
  method RefsOfType(s: Schema, refs: seq<Relation>, t: TypeId) returns (pairs: seq<(Relation, Column)>)
    ensures forall r, c :: (r, c) in pairs <==> r in refs && c in r.Columns() && s.consistent(t, c.ty)
  {
    pairs := [];
    for i := 0 to |refs|
      invariant forall r, c :: (r, c) in pairs <==> r in refs[..i] && c in r.Columns() && s.consistent(t, c.ty)
    {
      assert refs[..i + 1] == refs[..i] + [refs[i]];
      var cols := refs[i].Columns();
      for j := 0 to |cols|
        invariant forall r, c :: (r, c) in pairs <==>
          s.consistent(t, c.ty) && ((r in refs[..i] && c in r.Columns()) || (r == refs[i] && c in cols[..j]))
      {
        assert cols[..j + 1] == cols[..j] + [cols[j]];
        if s.consistent(t, cols[j].ty) {
          pairs := pairs + [(refs[i], cols[j])];
        }
      }
      assert cols[..|cols|] == cols;
    }
    assert refs[..|refs|] == refs;
  }

  /** column_reference. */
  method NewColumnReference(w: World, p: Prod, tc: Option<TypeId>) returns (r: Result<Expr>)
    requires p.scope.Valid() && p.level <= 103 + 3 * p.laterals
    ensures GoodValue(w, CtxOf(p), tc, r) && !r.Stuck?
    ensures r.Ok? ==> r.value.ColumnReference? && ExprAliases(r.value) == multiset{}
    ensures r.Ok? ==> r.value.ColumnReference?
  {
    var rel, col;
    if tc.Some? {
      var pairs := RefsOfType(w.g.schema, p.scope.refs, tc.value);
      var picked :- Pick(pairs);
      rel, col := picked.0, picked.1;
    } else {
      rel :- Pick(p.scope.refs);
      col :- Pick(rel.Columns());
    }
    ResolvesInDistinct(p.scope.refs, rel);
    r := Ok(ColumnReference(rel, col, col.ty));
  }

  /** const_expr. */
  method NewConstExpr(w: World, p: Prod, tc: Option<TypeId>) returns (r: Result<Expr>)
    requires p.level <= 103 + 3 * p.laterals
    ensures GoodValue(w, CtxOf(p), tc, r) && r.Ok? && ExprAliases(r.value) == multiset{}
    ensures r.Ok? ==> r.value.ConstExpr?
  {
    r := Ok(ConstExpr(if tc.Some? then tc.value else w.g.schema.inttype));
  }

  /** The first column a type accepts; the index promises that there is one. */
  method FirstAccepted(s: Schema, t: TypeId, cols: seq<Column>) returns (col: Column)
    requires exists c :: c in cols && s.consistent(t, c.ty)
    ensures exists i ::
      && 0 <= i < |cols| && col == cols[i] && s.consistent(t, col.ty)
      && forall j :: 0 <= j < i ==> !s.consistent(t, cols[j].ty)
  {
    var i := 0;
    while !s.consistent(t, cols[i].ty)
      invariant 0 <= i < |cols| && forall j :: 0 <= j < i ==> !s.consistent(t, cols[j].ty)
      invariant exists j :: i <= j < |cols| && s.consistent(t, cols[j].ty)
      decreases |cols| - i
    {
      i := i + 1;
    }
    col := cols[i];
  }

  lemma AggregateAccepted(w: World, t: TypeId, a: Routine)
    requires w.Ok() && t in w.idx.aggregatesReturning && a in w.idx.aggregatesReturning[t]
    ensures a in w.g.schema.aggregates && w.g.schema.consistent(t, a.restype)
  {
    assert Listed(w.idx.aggregatesReturning, t, a);
  }

  lemma TableAccepted(w: World, t: TypeId, tab: Table)
    requires w.Ok() && t in w.idx.tablesWithColumns && tab in w.idx.tablesWithColumns[t]
    ensures tab in w.g.schema.tables && exists c :: c in tab.columns && w.g.schema.consistent(t, c.ty)
  {
    assert Listed(w.idx.tablesWithColumns, t, tab);
  }

  /** atomic_subselect. */
  method NewAtomicSubselect(w: World, p: Prod, tc: Option<TypeId>) returns (r: Result<Expr>)
    requires w.Ok() && p.level <= 103 + 3 * p.laterals
    ensures GoodValue(w, CtxOf(p), tc, r) && !r.Stuck?
    ensures r.Ok? ==> ExprAliases(r.value) == multiset{}
    ensures r.Ok? ==> r.value.AtomicSubselect?
  {
    hide IndexesOf;
    var _ :- Match(w.g, "atomic_subselect");
    var s := w.g.schema;
    var agg: Option<Routine> := None;
    var constraint := tc;
    var d := D(6);
    if d < 3 {
      var a;
      if tc.Some? {
        a :- PickAt(w.idx.aggregatesReturning, tc.value);
        AggregateAccepted(w, tc.value, a);
      } else {
        a :- Pick(s.aggregates);
      }
      if |a.argtypes| == 1 {
        agg, constraint := Some(a), Some(a.argtypes[0]);
      }
    }
    var tab, col;
    if constraint.Some? {
      tab :- PickAt(w.idx.tablesWithColumns, constraint.value);
      TableAccepted(w, constraint.value, tab);
      col := FirstAccepted(s, constraint.value, tab.columns);
    } else {
      tab :- Pick(s.tables);
      col :- Pick(tab.columns);
    }
    r := Ok(AtomicSubselect(tab, col, agg, if agg.Some? then agg.value.restype else col.ty));
  }

  // ---- Value expressions with children ----

  lemma NoAliases()
    ensures ExprsAliases([]) == multiset{} && TablesAliases([]) == multiset{}
  {
  }

  /** One more expression, with names issued after those of the others. */
  lemma ExprsIssued(es: seq<Expr>, e: Expr, mid: seq<string>, issued: seq<string>, n: nat)
    requires Issued(ExprsAliases(es), mid, n) && mid <= issued && Issued(ExprAliases(e), issued, |mid|)
    ensures Issued(ExprsAliases(es + [e]), issued, n)
  {
    hide Issued, ExprAliases;
    IssuedBoth(ExprsAliases(es), ExprAliases(e), mid, issued, n);
    assert (es + [e])[..|es|] == es;
  }

  /** A routine of the wanted type without internal or array arguments. */
  predicate Callable(s: Schema, tc: Option<TypeId>, proc: Routine) {
    && (tc.Some? ==> s.consistent(tc.value, proc.restype))
    && (if tc.None? then proc.restype else tc.value) != s.internaltype
    && s.internaltype !in proc.argtypes && s.arraytype !in proc.argtypes
  }

  /** funcall: the search for a routine, retried within the budget of self. */
  method PickProc(w: World, self: Prod, tc: Option<TypeId>, m: map<TypeId, seq<Routine>>) returns (r: Result<Routine>)
    modifies self`retries
    ensures r.Ok? || r.Fail?
    ensures r.Ok? ==> Callable(w.g.schema, tc, r.value) && exists t :: t in m && r.value in m[t]
  {
    var s := w.g.schema;
    while true
      decreases self.retryLimit + 1 - self.retries
    {
      var proc;
      var good := true;
      if tc == None {
        proc :- PickAny(m);
      } else {
        proc :- PickAt(m, tc.value);
        good := s.consistent(tc.value, proc.restype);
      }
      var ty := if tc == None then proc.restype else tc.value;
      good := good && ty != s.internaltype && s.internaltype !in proc.argtypes && s.arraytype !in proc.argtypes;
      if good { return Ok(proc); }
      var _ :- self.Retry();
    }
  }

  method NewFuncall(w: World, fuel: nat, p: Prod, tc: Option<TypeId>, agg: bool) returns (r: Result<Expr>)
    requires w.Ok() && p.scope.Valid() && p.level <= 6
    modifies p.scope.stmtSeq
    ensures Kept(p.scope) && GoodValue(w, CtxOf(p), tc, r)
    ensures r.Ok? ==> r.value.Funcall? && r.value.isAggregate == agg
    ensures r.Ok? ==> Named(p.scope, ExprAliases(r.value))
    decreases fuel, 2
  {
    hide IndexesOf, GoodExpr, ExprAliases, ExprsAliases, Issued, Scope.Valid;
    var self := new Prod.Child(p, ValueKind);
    assert CtxOf(self) == CtxOf(p).Down();
    var s := w.g.schema;
    if tc == Some(s.internaltype) { return Fail; }
    var d := D(6);
    var m := if agg then w.idx.aggregatesReturning
             else if 4 < d then w.idx.routinesReturning
             else w.idx.parameterlessReturning;
    var proc :- PickProc(w, self, tc, m);
    ProcKnown(w, m, proc, agg);
    var parms :- Arguments(w, fuel, self, proc.argtypes);
    FuncallGood(w.g, CtxOf(p), tc, proc, agg, parms);
    r := Ok(Funcall(proc, agg, parms, if tc == None then proc.restype else tc.value));
  }

  /** One value per parameter. */
  method Arguments(w: World, fuel: nat, self: Prod, argtypes: seq<TypeId>) returns (r: Result<seq<Expr>>)
    requires w.Ok() && self.scope.Valid() && self.level <= 103 + 3 * self.laterals
    modifies self`retries, self.scope.stmtSeq
    ensures Kept(self.scope) && !r.Abort?
    ensures r.Ok? ==> |r.value| == |argtypes| && forall x :: x in r.value ==> GoodExpr(w.g, CtxOf(self), x)
    ensures r.Ok? ==> forall j :: 0 <= j < |argtypes| ==> w.g.schema.Meets(argtypes[j], r.value[j].ty)
    ensures r.Ok? ==> Named(self.scope, ExprsAliases(r.value))
    decreases fuel, 1
  {
    hide IndexesOf, GoodExpr, ExprAliases, ExprsAliases, Issued, Scope.Valid;
    var parms := [];
    NoAliases();
    IssuedNone(self.scope.stmtSeq.issued, |self.scope.stmtSeq.issued|);
    for i := 0 to |argtypes|
      invariant Kept(self.scope) && Named(self.scope, ExprsAliases(parms))
      invariant |parms| == i && forall x :: x in parms ==> GoodExpr(w.g, CtxOf(self), x)
      invariant forall j :: 0 <= j < i ==> w.g.schema.Meets(argtypes[j], parms[j].ty)
    {
      ghost var mid := self.scope.stmtSeq.issued;
      var expr :- ValueFactory(w, fuel, self, Some(argtypes[i]));
      ExprsIssued(parms, expr, mid, self.scope.stmtSeq.issued, old(|self.scope.stmtSeq.issued|));
      parms := parms + [expr];
    }
    r := Ok(parms);
  }

  /** What an index lists is in the schema. */
  lemma ProcKnown(w: World, m: map<TypeId, seq<Routine>>, proc: Routine, agg: bool)
    requires w.Ok() && exists t :: t in m && proc in m[t]
    requires if agg then m == w.idx.aggregatesReturning
             else m == w.idx.routinesReturning || m == w.idx.parameterlessReturning
    ensures proc in (if agg then w.g.schema.aggregates else w.g.schema.routines)
  {
    var t :| t in m && proc in m[t];
    assert Listed(m, t, proc);
  }

  lemma OperKnown(w: World, oper: Oper)
    requires w.Ok() && w.g.schema.booltype in w.idx.operatorsReturning
    requires oper in w.idx.operatorsReturning[w.g.schema.booltype]
    ensures oper in w.g.schema.operators && w.g.schema.consistent(w.g.schema.booltype, oper.result)
  {
    assert Listed(w.idx.operatorsReturning, w.g.schema.booltype, oper);
  }

  lemma FuncallGood(g: Grammar, c: Ctx, tc: Option<TypeId>, proc: Routine, agg: bool, parms: seq<Expr>)
    requires c.LevelOk() && Callable(g.schema, tc, proc) && |parms| == |proc.argtypes|
    requires proc in (if agg then g.schema.aggregates else g.schema.routines)
    requires forall x :: x in parms ==> GoodExpr(g, c.Down(), x)
    requires forall i :: 0 <= i < |parms| ==> g.schema.Meets(proc.argtypes[i], parms[i].ty)
    ensures
      var e := Funcall(proc, agg, parms, if tc == None then proc.restype else tc.value);
      GoodExpr(g, c, e) && ExprAliases(e) == ExprsAliases(parms)
  {
  }

  lemma CoalesceGood(g: Grammar, c: Ctx, nullif: bool, x: Expr, y: Expr, ty: TypeId)
    requires c.LevelOk() && GoodExpr(g, c.Down(), x) && GoodExpr(g, c.Down(), y) && x.ty == y.ty == ty
    ensures
      var e := Coalesce(nullif, x, y, ty);
      GoodExpr(g, c, e) && ExprAliases(e) == ExprAliases(x) + ExprAliases(y)
  {
  }

  /** coalesce and nullif: both sides are regenerated until their types agree. */
  method NewCoalesce(w: World, fuel: nat, p: Prod, tc: Option<TypeId>, nullif: bool) returns (r: Result<Expr>)
    requires w.Ok() && p.scope.Valid() && p.level <= 5
    modifies p.scope.stmtSeq
    ensures Kept(p.scope) && GoodValue(w, CtxOf(p), tc, r)
    ensures r.Ok? ==> Named(p.scope, ExprAliases(r.value))
    ensures r.Ok? ==> r.value.Coalesce? && r.value.nullif == nullif
    decreases fuel, 2
  {
    hide IndexesOf, GoodExpr, ExprAliases, Issued, Scope.Valid;
    var self := new Prod.Child(p, ValueKind);
    ghost var c := CtxOf(p).Down();
    assert CtxOf(self) == c;
    ghost var n := |p.scope.stmtSeq.issued|;
    var both :- ValuePair(w, fuel, self, tc);
    self.retryLimit := 20;
    while both.0.ty != both.1.ty
      invariant Issued(ExprAliases(both.0) + ExprAliases(both.1), p.scope.stmtSeq.issued, n)
      invariant Kept(p.scope) && GoodExpr(w.g, c, both.0) && GoodExpr(w.g, c, both.1)
      invariant tc.Some? && w.g.schema.Exact(tc.value) ==> both.0.ty == both.1.ty == tc.value
      decreases self.retryLimit + 1 - self.retries
    {
      var _ :- self.Retry();
      both :- Reconciled(w, fuel, self, both.0, both.1, n);
    }
    CoalesceGood(w.g, CtxOf(p), nullif, both.0, both.1, both.1.ty);
    r := Ok(Coalesce(nullif, both.0, both.1, both.1.ty));
  }

  /** case_expr. */
  method NewCaseExpr(w: World, fuel: nat, p: Prod, tc: Option<TypeId>) returns (r: Result<Expr>)
    requires w.Ok() && p.scope.Valid() && p.level <= 5
    modifies p.scope.stmtSeq
    ensures Kept(p.scope) && GoodValue(w, CtxOf(p), tc, r)
    ensures r.Ok? ==> Named(p.scope, ExprAliases(r.value))
    ensures r.Ok? ==> r.value.CaseExpr?
    decreases fuel, 2
  {
    hide IndexesOf, GoodExpr, ExprAliases, Issued, Scope.Valid;
    var self := new Prod.Child(p, ValueKind);
    ghost var c := CtxOf(p).Down();
    assert CtxOf(self) == c;
    var condition :- BoolFactory(w, fuel, self);
    ghost var mid := p.scope.stmtSeq.issued;
    var pair :- ValuePair(w, fuel, self, tc);
    var both :- Reconciled(w, fuel, self, pair.0, pair.1, |mid|);
    IssuedBoth(ExprAliases(condition), ExprAliases(both.0) + ExprAliases(both.1),
               mid, p.scope.stmtSeq.issued, old(|p.scope.stmtSeq.issued|));
    CaseGood(w.g, CtxOf(p), condition, both.0, both.1);
    r := Ok(CaseExpr(condition, both.0, both.1, both.0.ty));
  }

  lemma CaseGood(g: Grammar, c: Ctx, condition: Expr, t: Expr, f: Expr)
    requires c.LevelOk() && GoodCondition(g, c.Down(), condition)
    requires GoodExpr(g, c.Down(), t) && GoodExpr(g, c.Down(), f) && g.schema.Agree(t.ty, f.ty)
    ensures
      var e := CaseExpr(condition, t, f, t.ty);
      GoodExpr(g, c, e) && ExprAliases(e) == ExprAliases(condition) + (ExprAliases(t) + ExprAliases(f))
  {
  }

  /** A value, and another one for its type. */
  method ValuePair(w: World, fuel: nat, self: Prod, tc: Option<TypeId>) returns (r: Result<(Expr, Expr)>)
    requires w.Ok() && self.scope.Valid() && self.level <= 103 + 3 * self.laterals
    modifies self`retries, self.scope.stmtSeq
    ensures Kept(self.scope) && !r.Abort?
    ensures r.Ok? ==> GoodExpr(w.g, CtxOf(self), r.value.0) && GoodExpr(w.g, CtxOf(self), r.value.1)
    ensures r.Ok? ==> Named(self.scope, ExprAliases(r.value.0) + ExprAliases(r.value.1))
    ensures r.Ok? && tc.Some? && w.g.schema.Exact(tc.value) ==> r.value.0.ty == r.value.1.ty == tc.value
    ensures old(self.retries) <= self.retries
    decreases fuel, 1
  {
    hide IndexesOf, GoodExpr, ExprAliases, Issued, Scope.Valid;
    var first :- ValueFactory(w, fuel, self, tc);
    ghost var mid := self.scope.stmtSeq.issued;
    var second :- ValueFactory(w, fuel, self, Some(first.ty));
    IssuedBoth(ExprAliases(first), ExprAliases(second), mid, self.scope.stmtSeq.issued,
               old(|self.scope.stmtSeq.issued|));
    r := Ok((first, second));
  }

  /** Two values of different types: one of them is generated once more, for the other's type. */
  method Reconciled(w: World, fuel: nat, self: Prod, x: Expr, y: Expr, ghost n: nat) returns (r: Result<(Expr, Expr)>)
    requires w.Ok() && self.scope.Valid() && self.level <= 103 + 3 * self.laterals
    requires GoodExpr(w.g, CtxOf(self), x) && GoodExpr(w.g, CtxOf(self), y)
    requires Issued(ExprAliases(x) + ExprAliases(y), self.scope.stmtSeq.issued, n)
    modifies self`retries, self.scope.stmtSeq
    ensures Kept(self.scope) && !r.Abort?
    ensures r.Ok? ==> GoodExpr(w.g, CtxOf(self), r.value.0) && GoodExpr(w.g, CtxOf(self), r.value.1)
    ensures r.Ok? ==>
      Issued(ExprAliases(r.value.0) + ExprAliases(r.value.1), self.scope.stmtSeq.issued, n)
    ensures x.ty == y.ty ==> r == Ok((x, y))
    ensures r.Ok? && x.ty != y.ty ==>
      if w.g.schema.consistent(x.ty, y.ty) then r.value.1 == y && w.g.schema.Meets(y.ty, r.value.0.ty)
      else r.value.0 == x && w.g.schema.Meets(x.ty, r.value.1.ty)
    ensures old(self.retries) <= self.retries
    decreases fuel, 1
  {
    hide IndexesOf, GoodExpr, ExprAliases, Issued, Scope.Valid;
    if x.ty == y.ty { return Ok((x, y)); }
    ghost var mid := self.scope.stmtSeq.issued;
    IssuedPart(ExprAliases(x), ExprAliases(y), mid, n);
    if w.g.schema.consistent(x.ty, y.ty) {
      var x' :- ValueFactory(w, fuel, self, Some(y.ty));
      IssuedBoth(ExprAliases(y), ExprAliases(x'), mid, self.scope.stmtSeq.issued, n);
      return Ok((x', y));
    } else {
      var y' :- ValueFactory(w, fuel, self, Some(x.ty));
      IssuedBoth(ExprAliases(x), ExprAliases(y'), mid, self.scope.stmtSeq.issued, n);
      return Ok((x, y'));
    }
  }

  /** One column reference, then as many more as the dice ask for. */
  method ColumnReferences(w: World, self: Prod) returns (r: Result<seq<Expr>>)
    requires self.scope.Valid() && self.level <= 103 + 3 * self.laterals
    ensures !r.Abort? && !r.Stuck?
    ensures r.Ok? ==> r.value != [] && forall x :: x in r.value ==> GoodExpr(w.g, CtxOf(self), x)
    ensures r.Ok? ==> ExprsAliases(r.value) == multiset{}
  {
    hide GoodExpr, ExprAliases;
    var first :- NewColumnReference(w, self, None);
    var refs := [first];
    ExprsOne(first);
    var n := Repeats();
    for i := 0 to n
      invariant ExprsAliases(refs) == multiset{}
      invariant refs != [] && forall x :: x in refs ==> GoodExpr(w.g, CtxOf(self), x)
    {
      var next :- NewColumnReference(w, self, None);
      assert (refs + [next])[..|refs|] == refs;
      refs := refs + [next];
    }
    r := Ok(refs);
  }

  lemma ExprsOne(e: Expr)
    ensures ExprsAliases([e]) == ExprAliases(e)
  {
    hide ExprAliases;
    assert [e][..0] == [];
  }

  /** window_function. */
  method NewWindowFunction(w: World, fuel: nat, p: Prod, tc: Option<TypeId>) returns (r: Result<Expr>)
    requires w.Ok() && p.scope.Valid() && p.level <= 5 && Allowed(p)
    modifies p.scope.stmtSeq
    ensures Kept(p.scope) && GoodValue(w, CtxOf(p), tc, r)
    ensures r.Ok? ==> Named(p.scope, ExprAliases(r.value))
    ensures r.Ok? ==> r.value.WindowFunction?
    decreases fuel, 3
  {
    hide IndexesOf, GoodExpr, ExprAliases, ExprsAliases, Issued, Scope.Valid;
    var self := new Prod.Child(p, WindowKind);
    ghost var c := CtxOf(p).Down().NoWindow();
    assert CtxOf(self) == c;
    var _ :- Match(w.g, "window_function");
    var aggregate :- NewFuncall(w, fuel, self, tc, true);
    var partitionBy :- ColumnReferences(w, self);
    var orderBy :- ColumnReferences(w, self);
    WindowGood(w.g, CtxOf(p), aggregate, partitionBy, orderBy);
    assert ExprAliases(aggregate) + multiset{} + multiset{} == ExprAliases(aggregate);
    r := Ok(WindowFunction(aggregate, partitionBy, orderBy, aggregate.ty));
  }

  lemma WindowGood(g: Grammar, c: Ctx, aggregate: Expr, partitionBy: seq<Expr>, orderBy: seq<Expr>)
    requires c.LevelOk() && c.window && Matched(g.counts, "window_function")
    requires aggregate.Funcall? && aggregate.isAggregate && GoodExpr(g, c.Down().NoWindow(), aggregate)
    requires forall x :: x in partitionBy ==> GoodExpr(g, c.Down().NoWindow(), x)
    requires forall x :: x in orderBy ==> GoodExpr(g, c.Down().NoWindow(), x)
    ensures
      var e := WindowFunction(aggregate, partitionBy, orderBy, aggregate.ty);
      && GoodExpr(g, c, e)
      && ExprAliases(e) == ExprAliases(aggregate) + ExprsAliases(partitionBy) + ExprsAliases(orderBy)
  {
  }

  /** The dice of value_expr::factory(). */
  method TryValue(w: World, fuel: nat, p: Prod, tc: Option<TypeId>) returns (r: Result<Expr>)
    requires w.Ok() && p.scope.Valid() && p.level <= 103 + 3 * p.laterals
    modifies p.scope.stmtSeq
    ensures Kept(p.scope) && GoodValue(w, CtxOf(p), tc, r)
    ensures r.Ok? ==> Named(p.scope, ExprAliases(r.value))
    decreases fuel, 4
  {
    hide IndexesOf, GoodExpr, ExprAliases, Issued, Scope.Valid;
    IssuedNone(p.scope.stmtSeq.issued, |p.scope.stmtSeq.issued|);
    var d := D(20);
    var below := BelowD6(p.level);
    if d == 1 && below && Allowed(p) { r := NewWindowFunction(w, fuel, p, tc); return; }
    d := D(42);
    below := BelowD6(p.level);
    if d == 1 && below { r := NewCoalesce(w, fuel, p, tc, false); return; }
    d := D(42);
    below := BelowD6(p.level);
    if d == 1 && below { r := NewCoalesce(w, fuel, p, tc, true); return; }
    below := BelowD6(p.level);
    d := D(6);
    if below && d == 1 { r := NewFuncall(w, fuel, p, tc, false); return; }
    d := D(12);
    if d == 1 { r := NewAtomicSubselect(w, p, tc); return; }
    below := BelowD6(p.level);
    d := D(9);
    if below && d == 1 { r := NewCaseExpr(w, fuel, p, tc); return; }
    d := D(20);
    if p.scope.refs != [] && d > 1 { r := NewColumnReference(w, p, tc); return; }
    r := NewConstExpr(w, p, tc);
  }

  /** value_expr::factory(): a failed attempt is retried on the parent's budget. */
  method ValueFactory(w: World, fuel: nat, p: Prod, tc: Option<TypeId>) returns (r: Result<Expr>)
    requires w.Ok() && p.scope.Valid() && p.level <= 103 + 3 * p.laterals
    modifies p`retries, p.scope.stmtSeq
    ensures Kept(p.scope) && GoodValue(w, CtxOf(p), tc, r)
    ensures r.Ok? ==> Named(p.scope, ExprAliases(r.value))
    ensures old(p.retries) <= p.retries
    decreases fuel, 0
  {
    hide IndexesOf, GoodExpr, ExprAliases, Issued, Scope.Valid;
    if fuel == 0 { return Stuck; }
    r := TryValue(w, fuel - 1, p, tc);
    if r.Fail? {
      var _ :- p.Retry();
      ghost var n, m := old(|p.scope.stmtSeq.issued|), |p.scope.stmtSeq.issued|;
      r := ValueFactory(w, fuel - 1, p, tc);
      if r.Ok? { IssuedSince(ExprAliases(r.value), p.scope.stmtSeq.issued, n, m); }
    }
  }

  // ---- Boolean expressions ----

  ghost predicate GoodBool(w: World, c: Ctx, r: Result<Expr>) {
    && !r.Abort?
    && (r.Ok? ==> GoodCondition(w.g, c, r.value))
  }

  lemma ComparisonGood(g: Grammar, c: Ctx, oper: Oper, l: Expr, r: Expr)
    requires c.LevelOk() && GoodExpr(g, c.Down(), l) && GoodExpr(g, c.Down(), r)
    requires g.schema.Meets(oper.left, l.ty) && g.schema.Meets(oper.right, r.ty)
    requires oper.left == oper.right ==> g.schema.Agree(l.ty, r.ty)
    requires oper in g.schema.operators && g.schema.consistent(g.schema.booltype, oper.result)
    ensures
      var e := ComparisonOp(oper, l, r, g.schema.booltype);
      GoodCondition(g, c, e) && ExprAliases(e) == ExprAliases(l) + ExprAliases(r)
  {
  }

  /** comparison_op. */
  method NewComparisonOp(w: World, fuel: nat, p: Prod) returns (r: Result<Expr>)
    requires w.Ok() && p.scope.Valid() && p.level <= 100
    modifies p.scope.stmtSeq
    ensures Kept(p.scope) && GoodBool(w, CtxOf(p), r)
    ensures r.Ok? ==> Named(p.scope, ExprAliases(r.value))
    ensures r.Ok? ==> r.value.ComparisonOp?
    decreases fuel, 2
  {
    hide IndexesOf, GoodExpr, ExprAliases, Issued, Scope.Valid;
    var self := new Prod.Child(p, ValueKind);
    ghost var c := CtxOf(p).Down();
    assert CtxOf(self) == c;
    ghost var n := |p.scope.stmtSeq.issued|;
    var s := w.g.schema;
    var oper :- PickAt(w.idx.operatorsReturning, s.booltype);
    OperKnown(w, oper);
    var lhs :- ValueFactory(w, fuel, self, Some(oper.left));
    ghost var mid := p.scope.stmtSeq.issued;
    var rhs :- ValueFactory(w, fuel, self, Some(oper.right));
    IssuedBoth(ExprAliases(lhs), ExprAliases(rhs), mid, p.scope.stmtSeq.issued, n);
    if oper.left == oper.right {
      var both :- Reconciled(w, fuel, self, lhs, rhs, n);
      lhs, rhs := both.0, both.1;
    }
    ComparisonGood(w.g, CtxOf(p), oper, lhs, rhs);
    r := Ok(ComparisonOp(oper, lhs, rhs, s.booltype));
  }

  /** bool_term. */
  method NewBoolTerm(w: World, fuel: nat, p: Prod) returns (r: Result<Expr>)
    requires w.Ok() && p.scope.Valid() && p.level <= 100
    modifies p.scope.stmtSeq
    ensures Kept(p.scope) && GoodBool(w, CtxOf(p), r)
    ensures r.Ok? ==> Named(p.scope, ExprAliases(r.value))
    ensures r.Ok? ==> r.value.BoolTerm?
    decreases fuel, 2
  {
    hide IndexesOf, GoodExpr, ExprAliases, Issued, Scope.Valid;
    var self := new Prod.Child(p, ValueKind);
    assert CtxOf(self) == CtxOf(p).Down();
    var lhs :- BoolFactory(w, fuel, self);
    ghost var mid := p.scope.stmtSeq.issued;
    var rhs :- BoolFactory(w, fuel, self);
    IssuedBoth(ExprAliases(lhs), ExprAliases(rhs), mid, p.scope.stmtSeq.issued, old(|p.scope.stmtSeq.issued|));
    BoolTermGood(w.g, CtxOf(p), lhs, rhs);
    r := Ok(BoolTerm(lhs, rhs, w.g.schema.booltype));
  }

  lemma BoolTermGood(g: Grammar, c: Ctx, l: Expr, r: Expr)
    requires c.LevelOk() && GoodCondition(g, c.Down(), l) && GoodCondition(g, c.Down(), r)
    ensures
      var e := BoolTerm(l, r, g.schema.booltype);
      GoodCondition(g, c, e) && ExprAliases(e) == ExprAliases(l) + ExprAliases(r)
  {
  }

  /** null_predicate. */
  method NewNullPredicate(w: World, fuel: nat, p: Prod) returns (r: Result<Expr>)
    requires w.Ok() && p.scope.Valid() && p.level <= 100
    modifies p.scope.stmtSeq
    ensures Kept(p.scope) && GoodBool(w, CtxOf(p), r)
    ensures r.Ok? ==> Named(p.scope, ExprAliases(r.value))
    ensures r.Ok? ==> r.value.NullPredicate?
    decreases fuel, 2
  {
    hide IndexesOf, GoodExpr, ExprAliases, Issued, Scope.Valid;
    var self := new Prod.Child(p, ValueKind);
    assert CtxOf(self) == CtxOf(p).Down();
    var expr :- ValueFactory(w, fuel, self, None);
    NullPredicateGood(w.g, CtxOf(p), expr);
    r := Ok(NullPredicate(expr, w.g.schema.booltype));
  }

  lemma NullPredicateGood(g: Grammar, c: Ctx, x: Expr)
    requires c.LevelOk() && GoodExpr(g, c.Down(), x)
    ensures
      var e := NullPredicate(x, g.schema.booltype);
      GoodCondition(g, c, e) && ExprAliases(e) == ExprAliases(x)
  {
  }

  /** exists_predicate. */
  method NewExistsPredicate(w: World, fuel: nat, p: Prod) returns (r: Result<Expr>)
    requires w.Ok() && p.scope.Valid() && p.level <= 100
    modifies p.scope.stmtSeq
    ensures Kept(p.scope) && GoodBool(w, CtxOf(p), r)
    ensures r.Ok? ==> Named(p.scope, ExprAliases(r.value))
    ensures r.Ok? ==> r.value.ExistsPredicate?
    decreases fuel, 4
  {
    hide IndexesOf, GoodQuery, QueryAliases, Issued;
    var self := new Prod.Child(p, ValueKind);
    assert CtxOf(self) == CtxOf(p).Down();
    var subquery :- NewQuerySpec(w, fuel, self, self.scope, CtxOf(p).Down());
    r := Ok(ExistsPredicate(subquery, w.g.schema.booltype));
  }

  /** The dice of bool_expr::factory(): deep down only literals are left. */
  method TryBool(w: World, fuel: nat, p: Prod) returns (r: Result<Expr>)
    requires w.Ok() && p.scope.Valid() && p.level <= 102 + 3 * p.laterals
    modifies p.scope.stmtSeq
    ensures Kept(p.scope) && GoodBool(w, CtxOf(p), r)
    ensures r.Ok? ==> Named(p.scope, ExprAliases(r.value))
    decreases fuel, 5
  {
    hide IndexesOf, Issued;
    IssuedNone(p.scope.stmtSeq.issued, |p.scope.stmtSeq.issued|);
    var literal := TruthValue(w.g.schema.booltype);
    var d := D(100);
    if p.level > d { return Ok(literal); }
    d := D(6);
    if d < 4 { r := NewComparisonOp(w, fuel, p); return; }
    d := D(6);
    if d < 4 { r := NewBoolTerm(w, fuel, p); return; }
    d := D(6);
    if d < 4 { r := NewNullPredicate(w, fuel, p); return; }
    d := D(6);
    if d < 4 { return Ok(literal); }
    r := NewExistsPredicate(w, fuel, p);
  }

  /** bool_expr::factory(). */
  method BoolFactory(w: World, fuel: nat, p: Prod) returns (r: Result<Expr>)
    requires w.Ok() && p.scope.Valid() && p.level <= 102 + 3 * p.laterals
    modifies p`retries, p.scope.stmtSeq
    ensures Kept(p.scope) && GoodBool(w, CtxOf(p), r)
    ensures r.Ok? ==> Named(p.scope, ExprAliases(r.value))
    ensures old(p.retries) <= p.retries
    decreases fuel, 0
  {
    hide IndexesOf, GoodExpr, ExprAliases, Issued, Scope.Valid;
    if fuel == 0 { return Stuck; }
    r := TryBool(w, fuel - 1, p);
    if r.Fail? {
      var _ :- p.Retry();
      ghost var n, m := old(|p.scope.stmtSeq.issued|), |p.scope.stmtSeq.issued|;
      r := BoolFactory(w, fuel - 1, p);
      if r.Ok? { IssuedSince(ExprAliases(r.value), p.scope.stmtSeq.issued, n, m); }
    }
  }

  // ---- Queries ----

  /** query_spec: its own scope starts as a copy and is extended by the FROM clause. */
  method NewQuerySpec(w: World, fuel: nat, p: Prod?, s: Scope, ghost c: Ctx) returns (r: Result<Query>)
    requires w.Ok() && s.Valid()
    requires c.env == s.refs && c.tables == s.tables && c.level <= 102 + 3 * c.laterals
    requires c.level == if p == null then 0 else p.level + 1
    modifies s.stmtSeq
    ensures Kept(s) && !r.Abort?
    ensures r.Ok? ==> GoodQuery(w.g, c, r.value) && Named(s, QueryAliases(r.value))
    decreases fuel, 3
  {
    hide GoodQuery, GoodFrom, GoodTableRef, GoodExpr, IndexesOf;
    hide ExprAliases, ExprsAliases, TablesAliases, QueryAliases, Issued;
    ghost var n := |s.stmtSeq.issued|;
    var myscope := new Scope(s);
    var self := new Prod.Scoped(p, QueryKind, myscope, c.laterals);
    var from :- NewFromClause(w, fuel, self);
    ghost var inner := c.With(RefsAll(from));
    assert c.Down().Down().NoWindow() == Ctx(s.refs, s.tables, self.level + 2, self.laterals, false);
    ghost var first := s.stmtSeq.issued;
    var select :- NewSelectList(w, fuel, self);
    ghost var second := s.stmtSeq.issued;
    IssuedBoth(TablesAliases(from), ExprsAliases(select), first, second, n);
    assert CtxOf(self) == inner.Down().NoWindow();
    var search :- BoolFactory(w, fuel, self);
    IssuedBoth(TablesAliases(from) + ExprsAliases(select), ExprAliases(search), second, s.stmtSeq.issued, n);
    QueryGood(w.g, c, from, select, search);
    r := Ok(Query(from, select, search));
  }

  lemma QueryGood(g: Grammar, c: Ctx, from: seq<TableRef>, select: seq<Expr>, search: Expr)
    requires c.LevelOk() && GoodFrom(g, c.Down().Down().NoWindow(), from) && select != []
    requires
      var inner := c.With(RefsAll(from));
      && (forall e :: e in select ==> GoodExpr(g, inner.Down().Down().(window := true), e))
      && GoodCondition(g, inner.Down().NoWindow(), search)
    ensures
      var q := Query(from, select, search);
      && GoodQuery(g, c, q)
      && QueryAliases(q) == TablesAliases(from) + ExprsAliases(select) + ExprAliases(search)
  {
    hide GoodExpr, GoodTableRef, ExprAliases, ExprsAliases, TablesAliases;
  }

  /** FROM items at a position, each seeing what it may. */
  ghost predicate GoodFrom(g: Grammar, c: Ctx, items: seq<TableRef>) {
    && items != []
    && (forall i :: 0 <= i < |items| ==> i == 0 || IsLateral(items[i]))
    && forall i :: 0 <= i < |items| ==> GoodTableRef(g, ItemCtx(c, items, i), items[i])
  }

  lemma GoodFromFirst(g: Grammar, c: Ctx, first: TableRef)
    requires GoodTableRef(g, c, first)
    ensures GoodFrom(g, c, [first]) && RefsAll([first]) == Refs(first)
  {
    hide GoodTableRef;
    assert [first][..0] == [] && c.env + [] == c.env;
  }

  lemma GoodFromExtended(g: Grammar, c: Ctx, items: seq<TableRef>, next: TableRef)
    requires GoodFrom(g, c, items) && IsLateral(next)
    requires GoodTableRef(g, c.With(RefsAll(items)), next)
    ensures GoodFrom(g, c, items + [next])
    ensures RefsAll(items + [next]) == RefsAll(items) + Refs(next)
  {
    hide GoodTableRef;
    var more := items + [next];
    assert more[..|items|] == items;
    forall i | 0 <= i < |more|
      ensures GoodTableRef(g, ItemCtx(c, more, i), more[i])
    {
      if i < |items| {
        assert more[..i] == items[..i];
        assert ItemCtx(c, more, i) == ItemCtx(c, items, i);
      }
    }
  }

  /** from_clause: one table reference, then lateral subqueries, each of which
      sees the relations of the items before it. */
  method NewFromClause(w: World, fuel: nat, q: Prod) returns (r: Result<seq<TableRef>>)
    requires w.Ok() && q.scope.Valid() && q.level <= 102 + 3 * q.laterals
    modifies q.scope`refs, q.scope.stmtSeq
    ensures Kept(q.scope) && !r.Abort?
    ensures r.Ok? ==> q.scope.refs == old(q.scope.refs) + RefsAll(r.value)
    ensures r.Ok? ==>
      GoodFrom(w.g, Ctx(old(q.scope.refs), q.scope.tables, q.level + 2, q.laterals, false), r.value)
    ensures r.Ok? ==> Named(q.scope, TablesAliases(r.value))
    decreases fuel, 2
  {
    hide GoodTableRef, GoodFrom, IndexesOf, TableAliases, TablesAliases, Issued, NewRefs, Scope.Valid, Known;
    var self := new Prod.Child(q, OtherKind);
    ghost var c := CtxOf(self);
    ghost var issued := q.scope.stmtSeq.issued;
    AllKnown(q.scope);
    var first :- TableRefFactory(w, fuel, self);
    var items := [first];
    GoodFromFirst(w.g, c, first);
    TablesOne(first);
    AddRefs(q.scope, Refs(first), issued);
    var n := Repeats();
    for i := 0 to n
      invariant Kept(q.scope) && q.scope.refs == c.env + RefsAll(items)
      invariant GoodFrom(w.g, c, items) && Named(q.scope, TablesAliases(items))
    {
      if !Matched(w.g.counts, "lateral_subquery") { break; }
      if fuel == 0 { return Stuck; }
      issued := q.scope.stmtSeq.issued;
      assert CtxOf(self) == c.With(RefsAll(items));
      AllKnown(q.scope);
      var next :- NewSubquery(w, fuel - 1, self, true);
      GoodFromExtended(w.g, c, items, next);
      TablesIssued(items, next, issued, q.scope.stmtSeq.issued, old(|q.scope.stmtSeq.issued|));
      AddRefs(q.scope, Refs(next), issued);
      items := items + [next];
    }
    r := Ok(items);
  }

  lemma AllKnown(s: Scope)
    requires s.Valid()
    ensures forall x :: x in s.refs ==> Known(x, s.stmtSeq.issued)
  {
  }

  /** Newly named relations come into scope. */
  method AddRefs(s: Scope, refs: seq<Relation>, ghost before: seq<string>)
    requires s.Valid() && before <= s.stmtSeq.issued && NewRefs(refs, s.stmtSeq.issued, |before|)
    requires forall x :: x in s.refs ==> Known(x, before)
    modifies s`refs
    ensures s.Valid() && s.refs == old(s.refs) + refs
  {
    hide NewRefs, Known;
    assert s.stmtSeq.issued[..|before|] == before;
    NewRefsDistinct(s.refs, refs, s.stmtSeq.issued, |before|);
    s.refs := s.refs + refs;
  }

  lemma TablesOne(t: TableRef)
    ensures TablesAliases([t]) == TableAliases(t)
  {
    hide TableAliases;
    assert [t][..0] == [];
  }

  lemma TablesIssued(ts: seq<TableRef>, t: TableRef, mid: seq<string>, issued: seq<string>, n: nat)
    requires Issued(TablesAliases(ts), mid, n) && mid <= issued && Issued(TableAliases(t), issued, |mid|)
    ensures Issued(TablesAliases(ts + [t]), issued, n)
  {
    hide Issued, TableAliases;
    IssuedBoth(TablesAliases(ts), TableAliases(t), mid, issued, n);
    assert (ts + [t])[..|ts|] == ts;
  }

  /** select_list. */
  method NewSelectList(w: World, fuel: nat, q: Prod) returns (r: Result<seq<Expr>>)
    requires w.Ok() && q.scope.Valid() && q.level <= 102 + 3 * q.laterals
    modifies q.scope.stmtSeq
    ensures Kept(q.scope) && !r.Abort?
    ensures
      var c := Ctx(q.scope.refs, q.scope.tables, q.level + 2, q.laterals, q.kind == QueryKind);
      r.Ok? ==> r.value != [] && forall e :: e in r.value ==> GoodExpr(w.g, c, e)
    ensures r.Ok? ==> Named(q.scope, ExprsAliases(r.value))
    decreases fuel, 1
  {
    hide IndexesOf, GoodExpr, ExprAliases, ExprsAliases, Issued, Scope.Valid;
    var self := new Prod.Child(q, SelectListKind);
    ghost var c := CtxOf(self);
    var first :- ValueFactory(w, fuel, self, None);
    var exprs := [first];
    ExprsOne(first);
    var n := Repeats();
    for i := 0 to n
      invariant Kept(q.scope) && Named(q.scope, ExprsAliases(exprs))
      invariant exprs != [] && forall e :: e in exprs ==> GoodExpr(w.g, c, e)
    {
      ghost var mid := q.scope.stmtSeq.issued;
      var e :- ValueFactory(w, fuel, self, None);
      ExprsIssued(exprs, e, mid, q.scope.stmtSeq.issued, old(|q.scope.stmtSeq.issued|));
      exprs := exprs + [e];
    }
    r := Ok(exprs);
  }

  // ---- Table references ----

  /** A table reference whose relations are newly named. */
  ghost predicate GoodTable(w: World, c: Ctx, r: Result<TableRef>, issued: seq<string>, n: nat) {
    && !r.Abort?
    && (r.Ok? ==> GoodTableRef(w.g, c, r.value) && NewRefs(Refs(r.value), issued, n))
    && (r.Ok? ==> Issued(TableAliases(r.value), issued, n))
  }

  /** The relation named last. */
  lemma NewestRef(ref: Relation, issued: seq<string>, n: nat)
    requires ref.AliasedRel? && '.' !in ref.alias
    requires n < |issued| && issued[|issued| - 1] == ref.alias
    ensures NewRefs([ref], issued, n)
  {
    assert issued[n..][|issued| - 1 - n] == ref.alias;
  }

  /** prod::stmt_uid() in a scope. */
  method NewAlias(s: Scope, prefix: string) returns (alias: string)
    requires s.Valid() && PlainPrefix(prefix)
    modifies s.stmtSeq
    ensures Kept(s) && s.stmtSeq.issued == old(s.stmtSeq.issued) + [alias] && '.' !in alias
  {
    hide StmtSeq.Valid, PlainPrefix, DistinctIdents;
    alias := s.stmtSeq.Uid(prefix);
  }

  /** table_or_query_name. */
  method NewTableName(w: World, p: Prod) returns (r: Result<TableRef>)
    requires p.scope.Valid() && p.level <= 103 + 3 * p.laterals
    modifies p.scope.stmtSeq
    ensures Kept(p.scope) && !r.Stuck?
    ensures GoodTable(w, CtxOf(p), r, p.scope.stmtSeq.issued, old(|p.scope.stmtSeq.issued|))
    ensures r.Ok? ==> r.value.TableName?
  {
    hide Scope.Valid, Issued, NewRefs;
    var t :- Pick(p.scope.tables);
    var alias := NewAlias(p.scope, "ref");
    NewestRef(AliasedRel(alias, t.Columns()), p.scope.stmtSeq.issued, old(|p.scope.stmtSeq.issued|));
    IssuedLast(alias, old(p.scope.stmtSeq.issued), p.scope.stmtSeq.issued);
    r := Ok(TableName(t, AliasedRel(alias, t.Columns())));
  }

  lemma BaseTable(w: World, t: Table)
    requires w.Ok() && t in w.idx.baseTables
    ensures t.baseTable && t in w.g.schema.tables
  {
  }

  /** table_sample: retry() is called on every round, even on the last. */
  method NewTableSample(w: World, p: Prod) returns (r: Result<TableRef>)
    requires w.Ok() && p.scope.Valid() && p.level <= 103 + 3 * p.laterals
    modifies p.scope.stmtSeq
    ensures Kept(p.scope) && !r.Stuck?
    ensures GoodTable(w, CtxOf(p), r, p.scope.stmtSeq.issued, old(|p.scope.stmtSeq.issued|))
    ensures r.Ok? ==> r.value.TableSample?
  {
    hide IndexesOf, Issued, NewRefs, GoodTableRef, TableAliases, Refs, Scope.Valid;
    var self := new Prod.Child(p, OtherKind);
    var _ :- Match(w.g, "table_sample");
    self.retryLimit := 1000;
    var t :- Pick(w.idx.baseTables);
    var tried := self.Retry();
    assert tried.Ok?;
    // the index lists base tables only, so the loop never takes a second round
    BaseTable(w, t);
    var alias := NewAlias(p.scope, "sample");
    NewestRef(AliasedRel(alias, t.columns), p.scope.stmtSeq.issued, old(|p.scope.stmtSeq.issued|));
    IssuedLast(alias, old(p.scope.stmtSeq.issued), p.scope.stmtSeq.issued);
    SampleGood(w.g, CtxOf(p), t, alias);
    r := Ok(TableSample(t, AliasedRel(alias, t.columns)));
  }

  lemma SampleGood(g: Grammar, c: Ctx, t: Table, alias: string)
    requires c.LevelOk() && Matched(g.counts, "table_sample") && t in g.schema.tables && t.baseTable
    ensures
      var ref := AliasedRel(alias, t.columns);
      var sample := TableSample(t, ref);
      GoodTableRef(g, c, sample) && Refs(sample) == [ref] && TableAliases(sample) == multiset{alias}
  {
  }

  /** table_subquery and lateral_subquery. */
  method NewSubquery(w: World, fuel: nat, p: Prod, lateral: bool) returns (r: Result<TableRef>)
    requires w.Ok() && p.scope.Valid() && p.kind == OtherKind
    requires if lateral then p.level <= 103 + 3 * p.laterals else p.level <= 5
    requires lateral ==> Matched(w.g.counts, "lateral_subquery")
    modifies p.scope.stmtSeq
    ensures Kept(p.scope)
    ensures GoodTable(w, CtxOf(p), r, p.scope.stmtSeq.issued, old(|p.scope.stmtSeq.issued|))
    ensures r.Ok? ==> r.value.Subquery? && r.value.lateral == lateral
    decreases fuel, 6
  {
    hide IndexesOf, GoodQuery, DerivedColumns, QueryAliases, Issued, NewRefs, Scope.Valid;
    hide GoodTableRef, TableAliases, Refs, Matched;
    ghost var c := CtxOf(p);
    ghost var inside := if lateral then c.Down().(laterals := c.laterals + 1) else c.Down();
    var self := new Prod.Scoped(p, OtherKind, p.scope, inside.laterals);
    var query :- NewQuerySpec(w, fuel, self, p.scope, inside);
    ghost var mid := p.scope.stmtSeq.issued;
    var alias := NewAlias(p.scope, "subq");
    IssuedLast(alias, mid, p.scope.stmtSeq.issued);
    IssuedBoth(QueryAliases(query), multiset{alias}, mid, p.scope.stmtSeq.issued, old(|p.scope.stmtSeq.issued|));
    NewestRef(AliasedRel(alias, DerivedColumns(query.select)), p.scope.stmtSeq.issued, old(|p.scope.stmtSeq.issued|));
    SubqueryGood(w.g, c, lateral, query, alias);
    r := Ok(Subquery(lateral, query, AliasedRel(alias, DerivedColumns(query.select))));
  }

  lemma SubqueryGood(g: Grammar, c: Ctx, lateral: bool, q: Query, alias: string)
    requires c.LevelOk() && (lateral ==> Matched(g.counts, "lateral_subquery"))
    requires GoodQuery(g, if lateral then c.Down().(laterals := c.laterals + 1) else c.Down(), q)
    ensures
      var ref := AliasedRel(alias, DerivedColumns(q.select));
      var t := Subquery(lateral, q, ref);
      && GoodTableRef(g, c, t) && Refs(t) == [ref]
      && TableAliases(t) == QueryAliases(q) + multiset{alias} && (lateral ==> IsLateral(t))
  {
  }

  /** The relations of both sides of a join. */
  lemma NewRefsJoined(l: seq<Relation>, r: seq<Relation>, issued: seq<string>, n: nat, m: nat)
    requires Distinct(issued) && n <= m <= |issued|
    requires NewRefs(l, issued[..m], n) && NewRefs(r, issued, m)
    ensures NewRefs(l + r, issued, n)
  {
    forall x | x in l
      ensures Known(x, issued[..m]) && x.alias in issued[n..]
    {
      assert x.alias in issued[..m][n..];
      assert issued[..m][n..] <= issued[n..];
    }
    NewRefsDistinct(l, r, issued, m);
    forall x | x in r
      ensures x.alias in issued[n..]
    {
      assert x.alias in issued[m..];
      assert issued[n..][m - n..] == issued[m..];
    }
  }

  /** joined_table. */
  method NewJoinedTable(w: World, fuel: nat, p: Prod) returns (r: Result<TableRef>)
    requires w.Ok() && p.scope.Valid() && p.level <= 8 && p.kind == OtherKind
    modifies p.scope.stmtSeq
    ensures Kept(p.scope)
    ensures GoodTable(w, CtxOf(p), r, p.scope.stmtSeq.issued, old(|p.scope.stmtSeq.issued|))
    ensures r.Ok? ==> r.value.Joined?
    decreases fuel, 6
  {
    hide IndexesOf, Issued, NewRefs, Resolves, GoodTableRef, GoodCond, TableAliases, CondAliases;
    var self := new Prod.Child(p, OtherKind);
    ghost var c := CtxOf(p).Down();
    assert CtxOf(self) == c;
    ghost var s := p.scope.stmtSeq;
    ghost var n := |s.issued|;
    var lhs :- TableRefFactory(w, fuel, self);
    ghost var m, left := |s.issued|, s.issued;
    var rhs :- TableRefFactory(w, fuel, self);
    assert s.issued[..m] == left;
    ghost var both := s.issued;
    NewRefsJoined(Refs(lhs), Refs(rhs), s.issued, n, m);
    IssuedBoth(TableAliases(lhs), TableAliases(rhs), left, both, n);
    ghost var refs := Refs(lhs) + Refs(rhs);
    assert forall x :: x in p.scope.refs ==> Known(x, s.issued[..n]);
    var cond :- JoinCondFactory(w, fuel, self, Refs(lhs), Refs(rhs), n);
    NewRefsLater(refs, both, s.issued, n);
    IssuedBoth(TableAliases(lhs) + TableAliases(rhs), CondAliases(cond), both, s.issued, n);
    JoinedGood(w.g, CtxOf(p), lhs, rhs, cond);
    r := Ok(Joined(lhs, rhs, cond));
  }

  lemma JoinedGood(g: Grammar, c: Ctx, l: TableRef, r: TableRef, cond: JoinCond)
    requires c.LevelOk() && GoodTableRef(g, c.Down(), l) && GoodTableRef(g, c.Down(), r)
    requires GoodCond(g, c.Down(), Refs(l), Refs(r), cond)
    ensures
      var t := Joined(l, r, cond);
      && GoodTableRef(g, c, t) && Refs(t) == Refs(l) + Refs(r)
      && TableAliases(t) == TableAliases(l) + TableAliases(r) + CondAliases(cond)
  {
  }

  lemma NewRefsLater(refs: seq<Relation>, before: seq<string>, after: seq<string>, n: nat)
    requires NewRefs(refs, before, n) && before <= after
    ensures NewRefs(refs, after, n)
  {
    assert before[n..] <= after[n..];
  }

  /** simple_join_cond: a pair of columns of one type, one from each side. */
  method NewSimpleJoinCond(w: World, p: Prod, lrefs: seq<Relation>, rrefs: seq<Relation>) returns (r: Result<JoinCond>)
    requires p.level <= 9 && DistinctIdents(p.scope.refs + (lrefs + rrefs))
    ensures !r.Abort? && !r.Stuck?
    ensures r.Ok? ==>
      && r.value.SimpleCond? && r.value.leftRel in lrefs && r.value.rightRel in rrefs
      && GoodCond(w.g, CtxOf(p), lrefs, rrefs, r.value)
  {
    var self := new Prod.Child(p, OtherKind);
    ghost var env := p.scope.refs + (lrefs + rrefs);
    while true
      decreases self.retryLimit + 1 - self.retries
    {
      var leftRel :- Pick(lrefs);
      if leftRel.Columns() != [] {
        var rightRel :- Pick(rrefs);
        var c1 := PickSome(leftRel.Columns());
        var cols := rightRel.Columns();
        for i := 0 to |cols| {
          if c1.ty == cols[i].ty {
            assert leftRel in env && rightRel in env;
            ResolvesInDistinct(env, leftRel);
            ResolvesInDistinct(env, rightRel);
            return Ok(SimpleCond(leftRel, c1, rightRel, cols[i]));
          }
        }
      }
      var _ :- self.Retry();
    }
  }

  /** expr_join_cond: sees the relations of both sides. */
  method NewExprJoinCond(w: World, fuel: nat, p: Prod, lrefs: seq<Relation>, rrefs: seq<Relation>, ghost n: nat)
    returns (r: Result<JoinCond>)
    requires w.Ok() && p.scope.Valid() && p.level <= 9 && p.kind == OtherKind
    requires NewRefs(lrefs + rrefs, p.scope.stmtSeq.issued, n)
    requires forall x :: x in p.scope.refs ==> Known(x, p.scope.stmtSeq.issued[..n])
    modifies p.scope.stmtSeq
    ensures Kept(p.scope) && !r.Abort?
    ensures r.Ok? ==> GoodCond(w.g, CtxOf(p), lrefs, rrefs, r.value) && Named(p.scope, CondAliases(r.value))
    decreases fuel, 1
  {
    hide GoodExpr, ExprAliases, Issued, IndexesOf;
    var refs := lrefs + rrefs;
    var joinscope := new Scope(p.scope);
    NewRefsDistinct(p.scope.refs, refs, p.scope.stmtSeq.issued, n);
    joinscope.refs := joinscope.refs + refs;
    var self := new Prod.Scoped(p, OtherKind, joinscope, p.laterals);
    assert CtxOf(self) == CtxOf(p).With(refs).Down();
    var search :- BoolFactory(w, fuel, self);
    r := Ok(ExprCond(search));
  }

  /** join_cond::factory(). */
  method JoinCondFactory(w: World, fuel: nat, p: Prod, lrefs: seq<Relation>, rrefs: seq<Relation>, ghost n: nat)
    returns (r: Result<JoinCond>)
    requires w.Ok() && p.scope.Valid() && p.level <= 9 && p.kind == OtherKind
    requires NewRefs(lrefs + rrefs, p.scope.stmtSeq.issued, n)
    requires forall x :: x in p.scope.refs ==> Known(x, p.scope.stmtSeq.issued[..n])
    modifies p`retries, p.scope.stmtSeq
    ensures Kept(p.scope) && !r.Abort?
    ensures r.Ok? ==> GoodCond(w.g, CtxOf(p), lrefs, rrefs, r.value) && Named(p.scope, CondAliases(r.value))
    decreases fuel, 0
  {
    hide GoodCond, Issued, IndexesOf;
    if fuel == 0 { return Stuck; }
    IssuedNone(p.scope.stmtSeq.issued, |p.scope.stmtSeq.issued|);
    ghost var issued := p.scope.stmtSeq.issued;
    var d := D(6);
    if d < 6 {
      r := NewExprJoinCond(w, fuel - 1, p, lrefs, rrefs, n);
    } else {
      NewRefsDistinct(p.scope.refs, lrefs + rrefs, issued, n);
      r := NewSimpleJoinCond(w, p, lrefs, rrefs);
    }
    if r.Fail? {
      var _ :- p.Retry();
      NewRefsLater(lrefs + rrefs, issued, p.scope.stmtSeq.issued, n);
      assert p.scope.stmtSeq.issued[..n] == issued[..n];
      ghost var m := |p.scope.stmtSeq.issued|;
      r := JoinCondFactory(w, fuel - 1, p, lrefs, rrefs, n);
      if r.Ok? { IssuedSince(CondAliases(r.value), p.scope.stmtSeq.issued, |issued|, m); }
    }
  }

  /** The dice of table_ref::factory(): subqueries and joins only near the top. */
  method TryTable(w: World, fuel: nat, p: Prod) returns (r: Result<TableRef>)
    requires w.Ok() && p.scope.Valid() && p.level <= 103 + 3 * p.laterals && p.kind == OtherKind
    modifies p.scope.stmtSeq
    ensures Kept(p.scope)
    ensures GoodTable(w, CtxOf(p), r, p.scope.stmtSeq.issued, old(|p.scope.stmtSeq.issued|))
    decreases fuel, 7
  {
    hide IndexesOf;
    var d := D(6);
    if p.level < 3 + d {
      d := D(6);
      var below := BelowD6(p.level);
      if d > 3 && below { r := NewSubquery(w, fuel, p, false); return; }
      d := D(6);
      if d > 3 { r := NewJoinedTable(w, fuel, p); return; }
    }
    d := D(6);
    if d > 3 { r := NewTableName(w, p); return; }
    r := NewTableSample(w, p);
  }

  /** table_ref::factory(). */
  method TableRefFactory(w: World, fuel: nat, p: Prod) returns (r: Result<TableRef>)
    requires w.Ok() && p.scope.Valid() && p.level <= 103 + 3 * p.laterals && p.kind == OtherKind
    modifies p`retries, p.scope.stmtSeq
    ensures Kept(p.scope)
    ensures GoodTable(w, CtxOf(p), r, p.scope.stmtSeq.issued, old(|p.scope.stmtSeq.issued|))
    decreases fuel, 0
  {
    hide IndexesOf;
    if fuel == 0 { return Stuck; }
    r := TryTable(w, fuel - 1, p);
    if r.Fail? {
      var _ :- p.Retry();
      ghost var n, m := old(|p.scope.stmtSeq.issued|), |p.scope.stmtSeq.issued|;
      r := TableRefFactory(w, fuel - 1, p);
      if r.Ok? {
        NewRefsSince(Refs(r.value), p.scope.stmtSeq.issued, n, m);
        IssuedSince(TableAliases(r.value), p.scope.stmtSeq.issued, n, m);
      }
    }
  }

  lemma NewRefsSince(refs: seq<Relation>, issued: seq<string>, n: nat, m: nat)
    requires n <= m && NewRefs(refs, issued, m)
    ensures NewRefs(refs, issued, n)
  {
    assert issued[n..][m - n..] == issued[m..];
  }
}
