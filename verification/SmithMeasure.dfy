/**
  Measures of generated trees that do not mention positions: height, nesting of
  lateral subqueries, and the guarded productions that occur. What the generator
  guarantees node by node bounds them for whole statements.
 */
module SmithMeasure {
  import opened Impedance
  import opened Machine
  import opened Options
  import opened SmithAst

  /** Height, lateral nesting, and guarded production names. */
  datatype Size = Size(height: nat, laterals: nat, names: set<string>) {
    /** Side by side. */
    function Beside(other: Size): Size {
      Size(Max(height, other.height), Max(laterals, other.laterals), names + other.names)
    }

    /** Below n more nodes. */
    function Under(n: nat): Size { this.(height := height + n) }

    function Named(name: string): Size { this.(names := names + {name}) }
  }

  const LEAF: Size := Size(0, 0, {})

  function OfExpr(e: Expr): Size
    decreases e, 1
  {
    match e
    case WindowFunction(a, pb, ob, _) =>
      OfExpr(a).Beside(OfExprs(pb)).Beside(OfExprs(ob)).Under(1).Named("window_function")
    case Coalesce(_, x, y, _) => OfExpr(x).Beside(OfExpr(y)).Under(1)
    case Funcall(_, _, parms, _) => if parms == [] then LEAF else OfExprs(parms).Under(1)
    case AtomicSubselect(_, _, _, _) => LEAF.Named("atomic_subselect")
    case CaseExpr(x, y, z, _) => OfExpr(x).Beside(OfExpr(y)).Beside(OfExpr(z)).Under(1)
    case ColumnReference(_, _, _) => LEAF
    case ConstExpr(_) => LEAF
    case TruthValue(_) => LEAF
    case NullPredicate(x, _) => OfExpr(x).Under(1)
    case ExistsPredicate(q, _) => OfQuery(q).Under(1)
    case BoolTerm(x, y, _) => OfExpr(x).Beside(OfExpr(y)).Under(1)
    case ComparisonOp(_, x, y, _) => OfExpr(x).Beside(OfExpr(y)).Under(1)
  }

  function OfExprs(es: seq<Expr>): Size
    decreases es, 0
  {
    if es == [] then LEAF else OfExpr(es[0]).Beside(OfExprs(es[1..]))
  }

  /** Between a query and its FROM items or selected values there is one node. */
  function OfQuery(q: Query): Size
    decreases q, 1
  {
    OfTables(q.from).Under(2).Beside(OfExprs(q.select).Under(2)).Beside(OfExpr(q.search).Under(1))
  }

  function OfTables(ts: seq<TableRef>): Size
    decreases ts, 0
  {
    if ts == [] then LEAF else OfTable(ts[0]).Beside(OfTables(ts[1..]))
  }

  function OfTable(t: TableRef): Size
    decreases t, 1
  {
    match t
    case TableName(_, _) => LEAF
    case TableSample(_, _) => LEAF.Named("table_sample")
    case Subquery(lateral, q, _) =>
      var s := OfQuery(q).Under(1);
      if lateral then s.(laterals := s.laterals + 1).Named("lateral_subquery") else s
    case Joined(l, r, cond) => OfTable(l).Beside(OfTable(r)).Beside(OfCond(cond)).Under(1)
  }

  function OfCond(c: JoinCond): Size
    decreases c, 1
  {
    match c
    case SimpleCond(_, _, _, _) => LEAF
    case ExprCond(search) => OfExpr(search).Under(1)
  }

  // ---- What the measures see ----

  /** A part of this size, n levels below a whole of that size. */
  ghost predicate Inside(part: Size, whole: Size, n: nat) {
    part.height + n <= whole.height && part.laterals <= whole.laterals && part.names <= whole.names
  }

  /** The expressions right below an expression. */
  function Operands(e: Expr): seq<Expr> {
    match e
    case WindowFunction(a, pb, ob, _) => [a] + pb + ob
    case Coalesce(_, x, y, _) => [x, y]
    case Funcall(_, _, parms, _) => parms
    case CaseExpr(x, y, z, _) => [x, y, z]
    case NullPredicate(x, _) => [x]
    case BoolTerm(x, y, _) => [x, y]
    case ComparisonOp(_, x, y, _) => [x, y]
    case _ => []
  }

  lemma {:induction false} ListMeasured(es: seq<Expr>, x: Expr)
    requires x in es
    ensures Inside(OfExpr(x), OfExprs(es), 0)
  {
    hide OfExpr;
    if x != es[0] { ListMeasured(es[1..], x); }
  }

  lemma Pair(s: Size, t: Size, n: nat)
    ensures Inside(s, s.Beside(t).Under(n), n) && Inside(t, s.Beside(t).Under(n), n)
  {
  }

  lemma Deeper(p: Size, q: Size, r: Size, m: nat, n: nat)
    requires Inside(p, q, m) && Inside(q, r, n)
    ensures Inside(p, r, m + n)
  {
  }

  lemma Triple(s: Size, t: Size, u: Size, n: nat)
    ensures
      var whole := s.Beside(t).Beside(u).Under(n);
      Inside(s, whole, n) && Inside(t, whole, n) && Inside(u, whole, n)
  {
    hide Inside;
    Pair(s, t, 0);
    Pair(s.Beside(t), u, n);
    Deeper(s, s.Beside(t), s.Beside(t).Beside(u).Under(n), 0, n);
    Deeper(t, s.Beside(t), s.Beside(t).Beside(u).Under(n), 0, n);
  }

  lemma NamedAlso(s: Size, t: Size, name: string, n: nat)
    requires Inside(s, t, n)
    ensures Inside(s, t.Named(name), n)
  {
  }

  /** Nothing below an expression is missed, and its own guarded name is noted. */
  lemma ExprMeasured(e: Expr)
    ensures forall x :: x in Operands(e) ==> Inside(OfExpr(x), OfExpr(e), 1)
    ensures e.ExistsPredicate? ==> Inside(OfQuery(e.subquery), OfExpr(e), 1)
    ensures e.WindowFunction? ==> "window_function" in OfExpr(e).names
    ensures e.AtomicSubselect? ==> "atomic_subselect" in OfExpr(e).names
    ensures e.ColumnReference? || e.ConstExpr? || e.TruthValue? ==> OfExpr(e) == Size(0, 0, {})
  {
    hide OfExprs, OfQuery;
    forall x | x in Operands(e)
      ensures Inside(OfExpr(x), OfExpr(e), 1)
    {
      OperandMeasured(e, x);
    }
  }

  lemma OperandMeasured(e: Expr, x: Expr)
    requires x in Operands(e)
    ensures Inside(OfExpr(x), OfExpr(e), 1)
  {
    hide OfExprs, OfQuery, Inside;
    match e
    case WindowFunction(_, _, _, _) => WindowMeasured(e, x);
    case Coalesce(_, a, b, _) => Pair(OfExpr(a), OfExpr(b), 1);
    case Funcall(_, _, parms, _) =>
      ListMeasured(parms, x);
      Alone(OfExprs(parms), 1);
      Deeper(OfExpr(x), OfExprs(parms), OfExpr(e), 0, 1);
    case CaseExpr(a, b, c, _) => Triple(OfExpr(a), OfExpr(b), OfExpr(c), 1);
    case NullPredicate(a, _) => Alone(OfExpr(a), 1);
    case BoolTerm(a, b, _) => Pair(OfExpr(a), OfExpr(b), 1);
    case ComparisonOp(_, a, b, _) => Pair(OfExpr(a), OfExpr(b), 1);
  }

  lemma Alone(s: Size, n: nat)
    ensures Inside(s, s.Under(n), n)
  {
  }

  lemma WindowMeasured(e: Expr, x: Expr)
    requires e.WindowFunction? && (x == e.aggregate || x in e.partitionBy || x in e.orderBy)
    ensures Inside(OfExpr(x), OfExpr(e), 1)
  {
    hide OfExprs, Inside;
    var a, b, c := OfExpr(e.aggregate), OfExprs(e.partitionBy), OfExprs(e.orderBy);
    var below := a.Beside(b).Beside(c).Under(1);
    Triple(a, b, c, 1);
    if x in e.partitionBy {
      ListMeasured(e.partitionBy, x);
      Deeper(OfExpr(x), b, below, 0, 1);
    }
    if x in e.orderBy {
      ListMeasured(e.orderBy, x);
      Deeper(OfExpr(x), c, below, 0, 1);
    }
    NamedAlso(OfExpr(x), below, "window_function", 1);
  }

  lemma {:induction false} TablesMeasured(ts: seq<TableRef>, t: TableRef)
    requires t in ts
    ensures Inside(OfTable(t), OfTables(ts), 0)
  {
    hide OfTable;
    if t != ts[0] { TablesMeasured(ts[1..], t); }
  }

  /** The same of a query, whose FROM items and selected values are two levels below. */
  lemma QueryMeasured(q: Query)
    ensures forall t :: t in q.from ==> Inside(OfTable(t), OfQuery(q), 2)
    ensures forall x :: x in q.select ==> Inside(OfExpr(x), OfQuery(q), 2)
    ensures Inside(OfExpr(q.search), OfQuery(q), 1)
  {
    hide OfExpr, OfExprs, OfTable, OfTables;
    forall t | t in q.from ensures Inside(OfTable(t), OfQuery(q), 2) { TablesMeasured(q.from, t); }
    forall x | x in q.select ensures Inside(OfExpr(x), OfQuery(q), 2) { ListMeasured(q.select, x); }
  }

  /** The same of a table reference; a lateral subquery counts once more. */
  lemma TableMeasured(t: TableRef)
    ensures t.TableSample? ==> "table_sample" in OfTable(t).names
    ensures t.Subquery? ==> Inside(OfQuery(t.query), OfTable(t), 1)
    ensures t.Subquery? && t.lateral ==>
      OfTable(t).laterals == OfQuery(t.query).laterals + 1 && "lateral_subquery" in OfTable(t).names
    ensures t.Joined? ==> Inside(OfTable(t.left), OfTable(t), 1) && Inside(OfTable(t.right), OfTable(t), 1)
    ensures t.Joined? && t.cond.ExprCond? ==> Inside(OfExpr(t.cond.search), OfTable(t), 2)
  {
    hide OfExpr, OfQuery;
  }

  /** A tree of this size fits at a position: no node above the bound, nothing
      blacklisted. */
  ghost predicate Fits(g: Grammar, c: Ctx, s: Size) {
    && c.level + s.height <= 104 + 3 * (c.laterals + s.laterals)
    && forall name :: name in s.names ==> Matched(g.counts, name)
  }

  lemma FitsBeside(g: Grammar, c: Ctx, d: Ctx, s: Size, t: Size)
    requires c.level == d.level && c.laterals == d.laterals
    requires Fits(g, c, s) && Fits(g, d, t)
    ensures Fits(g, c, s.Beside(t))
  {
  }

  lemma {:induction false} ExprFits(g: Grammar, c: Ctx, e: Expr)
    requires GoodExpr(g, c, e)
    ensures Fits(g, c, OfExpr(e))
    decreases e, 1, 0
  {
    hide Fits, GoodQuery, OfQuery, OfExprs;
    var d := c.Down();
    match e
    case WindowFunction(a, pb, ob, _) =>
      var n := d.NoWindow();
      ExprFits(g, n, a);
      ExprsFit(g, n, pb);
      ExprsFit(g, n, ob);
      FitsBeside(g, n, n, OfExpr(a), OfExprs(pb));
      FitsBeside(g, n, n, OfExpr(a).Beside(OfExprs(pb)), OfExprs(ob));
      FitsUnder(g, c, n, OfExpr(a).Beside(OfExprs(pb)).Beside(OfExprs(ob)));
      FitsNamed(g, c, OfExpr(a).Beside(OfExprs(pb)).Beside(OfExprs(ob)).Under(1), "window_function");
    case Coalesce(_, x, y, _) =>
      ExprFits(g, d, x);
      ExprFits(g, d, y);
      PairFits(g, c, OfExpr(x), OfExpr(y));
    case Funcall(_, _, parms, _) =>
      FitsLeaf(g, c);
      if parms != [] {
        assert parms[0] in parms;
        ExprsFit(g, d, parms);
        FitsUnder(g, c, d, OfExprs(parms));
      }
    case AtomicSubselect(_, _, _, _) =>
      FitsLeaf(g, c);
      FitsNamed(g, c, LEAF, "atomic_subselect");
    case CaseExpr(x, y, z, _) =>
      ExprFits(g, d, x);
      ExprFits(g, d, y);
      ExprFits(g, d, z);
      FitsBeside(g, d, d, OfExpr(x), OfExpr(y));
      FitsBeside(g, d, d, OfExpr(x).Beside(OfExpr(y)), OfExpr(z));
      FitsUnder(g, c, d, OfExpr(x).Beside(OfExpr(y)).Beside(OfExpr(z)));
    case ColumnReference(_, _, _) => FitsLeaf(g, c);
    case ConstExpr(_) => FitsLeaf(g, c);
    case TruthValue(_) => FitsLeaf(g, c);
    case NullPredicate(x, _) =>
      ExprFits(g, d, x);
      FitsUnder(g, c, d, OfExpr(x));
    case ExistsPredicate(q, _) =>
      QueryFits(g, d, q);
      FitsUnder(g, c, d, OfQuery(q));
    case BoolTerm(x, y, _) =>
      ExprFits(g, d, x);
      ExprFits(g, d, y);
      PairFits(g, c, OfExpr(x), OfExpr(y));
    case ComparisonOp(_, x, y, _) =>
      ExprFits(g, d, x);
      ExprFits(g, d, y);
      PairFits(g, c, OfExpr(x), OfExpr(y));
  }

  lemma PairFits(g: Grammar, c: Ctx, s: Size, t: Size)
    requires Fits(g, c.Down(), s) && Fits(g, c.Down(), t)
    ensures Fits(g, c, s.Beside(t).Under(1))
  {
    hide Fits;
    FitsBeside(g, c.Down(), c.Down(), s, t);
    FitsUnder(g, c, c.Down(), s.Beside(t));
  }

  lemma FitsUnder(g: Grammar, c: Ctx, d: Ctx, s: Size)
    requires d.level == c.level + 1 && d.laterals == c.laterals && Fits(g, d, s)
    ensures Fits(g, c, s.Under(1))
  {
  }

  lemma FitsNamed(g: Grammar, c: Ctx, s: Size, name: string)
    requires Fits(g, c, s) && Matched(g.counts, name)
    ensures Fits(g, c, s.Named(name))
  {
  }

  lemma FitsLeaf(g: Grammar, c: Ctx)
    requires c.LevelOk()
    ensures Fits(g, c, LEAF)
  {
  }

  lemma {:induction false} ExprsFit(g: Grammar, c: Ctx, es: seq<Expr>)
    requires c.LevelOk() && forall e :: e in es ==> GoodExpr(g, c, e)
    ensures Fits(g, c, OfExprs(es))
    decreases es, 0, 0
  {
    if es != [] {
      ExprFits(g, c, es[0]);
      ExprsFit(g, c, es[1..]);
    }
  }

  lemma {:induction false} QueryFits(g: Grammar, c: Ctx, q: Query)
    requires GoodQuery(g, c, q)
    ensures Fits(g, c, OfQuery(q))
    decreases q, 1, 0
  {
    hide GoodExpr, OfExpr, OfExprs, OfTables, Matched;
    var inner := c.With(RefsAll(q.from));
    TablesFit(g, c.Down().Down().NoWindow(), q.from, 0);
    assert q.select[0] in q.select;
    ExprsFit(g, inner.Down().Down().(window := true), q.select);
    ExprFits(g, inner.Down().NoWindow(), q.search);
    assert q.from[0..] == q.from;
  }

  lemma {:induction false} TablesFit(g: Grammar, c: Ctx, items: seq<TableRef>, i: nat)
    requires i <= |items| && c.LevelOk()
    requires forall j :: 0 <= j < |items| ==> GoodTableRef(g, ItemCtx(c, items, j), items[j])
    ensures Fits(g, c, OfTables(items[i..]))
    decreases items, 0, |items| - i
  {
    if i < |items| {
      TableFits(g, ItemCtx(c, items, i), items[i]);
      TablesFit(g, c, items, i + 1);
      assert items[i..][1..] == items[i + 1..];
    }
  }

  lemma {:induction false} TableFits(g: Grammar, c: Ctx, t: TableRef)
    requires GoodTableRef(g, c, t)
    ensures Fits(g, c, OfTable(t))
    decreases t, 1, 0
  {
    match t
    case TableName(_, _) =>
    case TableSample(_, _) =>
    case Subquery(lateral, q, _) =>
      QueryFits(g, if lateral then c.Down().(laterals := c.laterals + 1) else c.Down(), q);
    case Joined(l, r, cond) =>
      TableFits(g, c.Down(), l);
      TableFits(g, c.Down(), r);
      CondFits(g, c.Down(), Refs(l), Refs(r), cond);
  }

  lemma {:induction false} CondFits(g: Grammar, c: Ctx, left: seq<Relation>, right: seq<Relation>, j: JoinCond)
    requires GoodCond(g, c, left, right, j)
    ensures Fits(g, c, OfCond(j))
    decreases j, 1, 0
  {
    if j.ExprCond? {
      ExprFits(g, c.With(left + right).Down(), j.search);
    }
  }

  // ---- Whole statements ----

  function OfSet(setList: seq<Assignment>): Size {
    if setList == [] then LEAF else OfExpr(setList[0].value).Beside(OfSet(setList[1..]))
  }

  function OfWhens(clauses: seq<When>): Size {
    if clauses == [] then LEAF else OfWhen(clauses[0]).Beside(OfWhens(clauses[1..]))
  }

  function OfWhen(x: When): Size {
    var condition := OfExpr(x.condition).Under(1);
    match x
    case WhenPlain(_) => condition
    case WhenUpdate(_, setList) => condition.Beside(OfSet(setList).Under(2))
    case WhenInsert(_, values) => condition.Beside(OfExprs(values).Under(1))
  }

  function OfQueries(qs: seq<Query>): Size {
    if qs == [] then LEAF else OfQuery(qs[0]).Beside(OfQueries(qs[1..]))
  }

  function OfStmt(s: Stmt): Size {
    match s
    case Select(q) => OfQuery(q)
    case With(queries, _, q) => OfQueries(queries).Beside(OfQuery(q)).Under(1)
    case Insert(_, values) =>
      (if values == [] then LEAF else OfExprs(values).Under(1)).Named("insert_stmt")
    case Upsert(_, values, setList, search) =>
      OfExprs(values).Under(1).Beside(OfSet(setList).Under(2)).Beside(OfExpr(search).Under(1)).Named("upsert_stmt")
    case DeleteReturning(_, search, returning) =>
      OfExpr(search).Under(1).Beside(OfExprs(returning).Under(2)).Named("delete_returning")
    case UpdateReturning(_, search, setList, returning) =>
      var changed := OfExpr(search).Under(1).Beside(OfSet(setList).Under(2));
      changed.Beside(OfExprs(returning).Under(2)).Named("update_returning")
    case Merge(_, _, source, cond, clauses) =>
      OfTable(source).Under(1).Beside(OfCond(cond).Under(1)).Beside(OfWhens(clauses).Under(1)).Named("merge_stmt")
  }

  /** Nothing in a statement is missed, and its own guarded name is noted. */
  lemma StmtMeasured(s: Stmt)
    ensures s.Select? ==> OfStmt(s) == OfQuery(s.query)
    ensures s.With? ==> Inside(OfQuery(s.query), OfStmt(s), 1) && Inside(OfQueries(s.queries), OfStmt(s), 1)
    ensures (s.Insert? && s.values != []) || s.Upsert? ==> Inside(OfExprs(s.values), OfStmt(s), 1)
    ensures s.Upsert? || s.DeleteReturning? || s.UpdateReturning? ==> Inside(OfExpr(s.search), OfStmt(s), 1)
    ensures s.Upsert? || s.UpdateReturning? ==> Inside(OfSet(s.setList), OfStmt(s), 2)
    ensures s.DeleteReturning? || s.UpdateReturning? ==> Inside(OfExprs(s.returning), OfStmt(s), 2)
    ensures s.Merge? ==> Inside(OfTable(s.source), OfStmt(s), 1) && Inside(OfCond(s.cond), OfStmt(s), 1)
    ensures s.Merge? ==> Inside(OfWhens(s.clauses), OfStmt(s), 1)
    ensures forall name :: GuardOf(s) == Some(name) ==> name in OfStmt(s).names
  {
    hide OfExpr, OfExprs, OfQuery, OfQueries, OfSet, OfTable, OfCond, OfWhens;
  }

  /** The guarded production a statement is made by. */
  function GuardOf(s: Stmt): Option<string> {
    match s
    case Select(_) => None
    case With(_, _, _) => None
    case Insert(_, _) => Some("insert_stmt")
    case Upsert(_, _, _, _) => Some("upsert_stmt")
    case DeleteReturning(_, _, _) => Some("delete_returning")
    case UpdateReturning(_, _, _, _) => Some("update_returning")
    case Merge(_, _, _, _, _) => Some("merge_stmt")
  }

  lemma {:induction false} QueriesMeasured(qs: seq<Query>, q: Query)
    requires q in qs
    ensures Inside(OfQuery(q), OfQueries(qs), 0)
  {
    hide OfQuery;
    if q != qs[0] { QueriesMeasured(qs[1..], q); }
  }

  lemma {:induction false} SetMeasured(setList: seq<Assignment>, a: Assignment)
    requires a in setList
    ensures Inside(OfExpr(a.value), OfSet(setList), 0)
  {
    hide OfExpr;
    if a != setList[0] { SetMeasured(setList[1..], a); }
  }

  lemma {:induction false} WhensMeasured(clauses: seq<When>, x: When)
    requires x in clauses
    ensures Inside(OfWhen(x), OfWhens(clauses), 0)
  {
    hide OfWhen;
    if x != clauses[0] { WhensMeasured(clauses[1..], x); }
  }

  /** The same of a WHEN clause. */
  lemma WhenMeasured(x: When)
    ensures Inside(OfExpr(x.condition), OfWhen(x), 1)
    ensures x.WhenUpdate? ==> forall a :: a in x.setList ==> Inside(OfExpr(a.value), OfWhen(x), 2)
    ensures x.WhenInsert? ==> forall e :: e in x.values ==> Inside(OfExpr(e), OfWhen(x), 1)
  {
    hide OfExpr, OfExprs, OfSet;
    if x.WhenUpdate? {
      forall a | a in x.setList ensures Inside(OfExpr(a.value), OfWhen(x), 2) { SetMeasured(x.setList, a); }
    }
    if x.WhenInsert? {
      forall e | e in x.values ensures Inside(OfExpr(e), OfWhen(x), 1) { ListMeasured(x.values, e); }
    }
  }

  lemma {:induction false} SetFits(g: Grammar, c: Ctx, setList: seq<Assignment>)
    requires c.LevelOk() && forall a :: a in setList ==> GoodExpr(g, c, a.value)
    ensures Fits(g, c, OfSet(setList))
  {
    if setList != [] {
      assert setList[0] in setList;
      ExprFits(g, c, setList[0].value);
      SetFits(g, c, setList[1..]);
    }
  }

  lemma {:induction false} WhensFit(g: Grammar, c: Ctx, victim: Table, target: Relation, clauses: seq<When>)
    requires c.level == 1 && forall x :: x in clauses ==> GoodWhen(g, c, victim, target, x)
    ensures Fits(g, c, OfWhens(clauses))
  {
    hide GoodWhen, OfWhen, Matched;
    if clauses != [] {
      assert clauses[0] in clauses;
      WhenFits(g, c, victim, target, clauses[0]);
      WhensFit(g, c, victim, target, clauses[1..]);
    }
  }

  lemma WhenFits(g: Grammar, c: Ctx, victim: Table, target: Relation, x: When)
    requires c.level == 1 && GoodWhen(g, c, victim, target, x)
    ensures Fits(g, c, OfWhen(x))
  {
    hide GoodExpr, OfExpr, OfExprs, OfSet, Matched;
    ExprFits(g, c.Down(), x.condition);
    match x
    case WhenPlain(_) =>
    case WhenUpdate(_, setList) => SetFits(g, c.With([target]).Down().Down(), setList);
    case WhenInsert(_, values) => ExprsFit(g, c.Down(), values);
  }

  lemma {:induction false} QueriesFit(g: Grammar, c: Ctx, qs: seq<Query>)
    requires c.LevelOk() && forall q :: q in qs ==> GoodQuery(g, c, q)
    ensures Fits(g, c, OfQueries(qs))
  {
    if qs != [] {
      QueryFits(g, c, qs[0]);
      QueriesFit(g, c, qs[1..]);
    }
  }

  /** The height of a generated statement is at most 104, plus 3 for every lateral
      subquery nested in another; and no guarded production in it was blacklisted
      when it was generated. */
  lemma {:induction false} StatementFits(g: Grammar, tables: seq<Relation>, s: Stmt)
    requires GoodStmt(g, tables, s)
    ensures OfStmt(s).height <= 104 + 3 * OfStmt(s).laterals
    ensures forall name :: name in OfStmt(s).names ==> Matched(g.counts, name)
  {
    hide GoodTree, OfStmt, DistinctAliases, Matched;
    TreeFits(g, tables, s);
  }

  lemma {:induction false} TreeFits(g: Grammar, tables: seq<Relation>, s: Stmt)
    requires GoodTree(g, tables, s)
    ensures Fits(g, Top(tables), OfStmt(s))
  {
    hide GoodExpr, GoodQuery, GoodTableRef, GoodCond, GoodWhen, Matched;
    hide OfExpr, OfExprs, OfQuery, OfTable, OfCond, OfSet, OfWhens, OfQueries;
    var c := Top(tables);
    match s
    case Select(q) => QueryFits(g, c, q);
    case With(queries, refs, q) =>
      var more :|
        (forall r :: r in more ==> r in tables) && GoodQuery(g, c.(tables := tables + refs + more).Down(), q);
      QueriesFit(g, c.Down(), queries);
      QueryFits(g, c.(tables := tables + refs + more).Down(), q);
    case Insert(_, values) => ExprsFit(g, c.Down(), values);
    case Merge(victim, target, source, cond, clauses) =>
      TableFits(g, c.Down(), source);
      CondFits(g, c.Down(), [target], Refs(source), cond);
      WhensFit(g, c.Down(), victim, target, clauses);
    case Upsert(_, _, _, _) => UpsertFits(g, tables, s);
    case _ => ReturningFits(g, tables, s);
  }

  lemma UpsertFits(g: Grammar, tables: seq<Relation>, s: Stmt)
    requires GoodTree(g, tables, s) && s.Upsert?
    ensures Fits(g, Top(tables), OfStmt(s))
  {
    hide GoodExpr, Matched, OfExpr, OfExprs, OfSet;
    var c := Top(tables).Down();
    ExprsFit(g, c, s.values);
    SetFits(g, c.Down(), s.setList);
    ExprFits(g, c, s.search);
  }

  lemma {:induction false} ReturningFits(g: Grammar, tables: seq<Relation>, s: Stmt)
    requires GoodTree(g, tables, s) && (s.DeleteReturning? || s.UpdateReturning?)
    ensures Fits(g, Top(tables), OfStmt(s))
  {
    hide GoodExpr, Matched, OfExpr, OfExprs, OfSet;
    var c := Top(tables);
    match s
    case DeleteReturning(victim, search, returning) =>
      var d := c.With([BaseRel(victim)]).Down();
      ExprFits(g, d, search);
      ExprsFit(g, d.Down(), returning);
    case UpdateReturning(victim, search, setList, returning) =>
      var d := c.With([BaseRel(victim)]).Down();
      ExprFits(g, d, search);
      SetFits(g, d.Down(), setList);
      ExprsFit(g, d.Down(), returning);
  }
}
