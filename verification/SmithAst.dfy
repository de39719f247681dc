/**
  The relational vocabulary of the statement generator and the syntax trees it
  builds, with what it means for a tree to be good at a position: properly
  scoped, not too deep, and free of blacklisted productions.
 */
module SmithAst {
  import opened Impedance
  import opened Options

  /** SQL types are compared by identity. */
  type TypeId = nat

  datatype Column = Column(name: string, ty: TypeId)

  datatype Table = Table(
    name: string, schema: string, insertable: bool, baseTable: bool,
    columns: seq<Column>, constraints: seq<string>)

  /** A named relation: a table, or something behind an alias. */
  datatype Relation = BaseRel(table: Table) | AliasedRel(alias: string, cols: seq<Column>) {
    function Ident(): string {
      match this
      case BaseRel(t) => t.schema + "." + t.name
      case AliasedRel(alias, _) => alias
    }

    function Columns(): seq<Column> {
      match this
      case BaseRel(t) => t.columns
      case AliasedRel(_, cols) => cols
    }
  }

  datatype Routine = Routine(name: string, argtypes: seq<TypeId>, restype: TypeId)

  datatype Oper = Oper(name: string, left: TypeId, right: TypeId, result: TypeId)

  /** What the generator knows about the database. consistent(t, u) holds when the
      possibly generic type t accepts u. */
  datatype Schema = Schema(
    types: seq<TypeId>, consistent: (TypeId, TypeId) -> bool,
    booltype: TypeId, inttype: TypeId, internaltype: TypeId, arraytype: TypeId,
    tables: seq<Table>, operators: seq<Oper>, routines: seq<Routine>, aggregates: seq<Routine>)
  {
    /** A concrete type: it accepts nothing but itself. */
    ghost predicate Exact(t: TypeId) {
      forall u: TypeId :: consistent(t, u) ==> u == t
    }

    /** What a value generated for a type promises: a concrete type is met exactly. */
    ghost predicate Meets(wanted: TypeId, given: TypeId) { Exact(wanted) ==> given == wanted }

    /** Values that belong together do not have two different concrete types. */
    ghost predicate Agree(t: TypeId, u: TypeId) { Exact(t) && Exact(u) ==> t == u }
  }

  // ---- Syntax trees ----

  datatype Expr =
    | WindowFunction(aggregate: Expr, partitionBy: seq<Expr>, orderBy: seq<Expr>, ty: TypeId)
    | Coalesce(nullif: bool, first: Expr, second: Expr, ty: TypeId)
    | Funcall(proc: Routine, isAggregate: bool, parms: seq<Expr>, ty: TypeId)
    | AtomicSubselect(tab: Table, col: Column, agg: Option<Routine>, ty: TypeId)
    | CaseExpr(condition: Expr, trueExpr: Expr, falseExpr: Expr, ty: TypeId)
    | ColumnReference(rel: Relation, col: Column, ty: TypeId)
    | ConstExpr(ty: TypeId)
    | TruthValue(ty: TypeId)
    | NullPredicate(expr: Expr, ty: TypeId)
    | ExistsPredicate(subquery: Query, ty: TypeId)
    | BoolTerm(lhs: Expr, rhs: Expr, ty: TypeId)
    | ComparisonOp(oper: Oper, lhs: Expr, rhs: Expr, ty: TypeId)

  datatype Query = Query(from: seq<TableRef>, select: seq<Expr>, search: Expr)

  datatype TableRef =
    | TableName(t: Relation, ref: Relation)
    | TableSample(sampled: Table, ref: Relation)
    | Subquery(lateral: bool, query: Query, ref: Relation)
    | Joined(left: TableRef, right: TableRef, cond: JoinCond)

  datatype JoinCond =
    | SimpleCond(leftRel: Relation, leftCol: Column, rightRel: Relation, rightCol: Column)
    | ExprCond(search: Expr)

  datatype Assignment = Assignment(column: Column, value: Expr)

  datatype When =
    | WhenPlain(condition: Expr)
    | WhenUpdate(condition: Expr, setList: seq<Assignment>)
    | WhenInsert(condition: Expr, values: seq<Expr>)

  datatype Stmt =
    | Select(query: Query)
    | With(queries: seq<Query>, refs: seq<Relation>, query: Query)
    | Insert(victim: Table, values: seq<Expr>)
    | Upsert(victim: Table, values: seq<Expr>, setList: seq<Assignment>, search: Expr)
    | DeleteReturning(victim: Table, search: Expr, returning: seq<Expr>)
    | UpdateReturning(victim: Table, search: Expr, setList: seq<Assignment>, returning: seq<Expr>)
    | Merge(victim: Table, target: Relation, source: TableRef, cond: JoinCond, clauses: seq<When>)

  /** The relations a FROM item makes visible. */
  function Refs(t: TableRef): seq<Relation> {
    match t
    case TableName(_, ref) => [ref]
    case TableSample(_, ref) => [ref]
    case Subquery(_, _, ref) => [ref]
    case Joined(l, r, _) => Refs(l) + Refs(r)
  }

  function RefsAll(items: seq<TableRef>): seq<Relation> {
    if items == [] then [] else RefsAll(items[..|items| - 1]) + Refs(items[|items| - 1])
  }

  // ---- Aliases ----

  /** The aliases a tree introduces, each as often as it does. */
  function ExprAliases(e: Expr): multiset<string>
    decreases e, 1
  {
    match e
    case WindowFunction(a, pb, ob, _) => ExprAliases(a) + ExprsAliases(pb) + ExprsAliases(ob)
    case Coalesce(_, x, y, _) => ExprAliases(x) + ExprAliases(y)
    case Funcall(_, _, parms, _) => ExprsAliases(parms)
    case AtomicSubselect(_, _, _, _) => multiset{}
    case CaseExpr(x, y, z, _) => ExprAliases(x) + ExprAliases(y) + ExprAliases(z)
    case ColumnReference(_, _, _) => multiset{}
    case ConstExpr(_) => multiset{}
    case TruthValue(_) => multiset{}
    case NullPredicate(x, _) => ExprAliases(x)
    case ExistsPredicate(q, _) => QueryAliases(q)
    case BoolTerm(x, y, _) => ExprAliases(x) + ExprAliases(y)
    case ComparisonOp(_, x, y, _) => ExprAliases(x) + ExprAliases(y)
  }

  function ExprsAliases(es: seq<Expr>): multiset<string>
    decreases es, 0
  {
    if es == [] then multiset{} else ExprsAliases(es[..|es| - 1]) + ExprAliases(es[|es| - 1])
  }

  function QueryAliases(q: Query): multiset<string>
    decreases q, 1
  {
    TablesAliases(q.from) + ExprsAliases(q.select) + ExprAliases(q.search)
  }

  function TablesAliases(ts: seq<TableRef>): multiset<string>
    decreases ts, 0
  {
    if ts == [] then multiset{} else TablesAliases(ts[..|ts| - 1]) + TableAliases(ts[|ts| - 1])
  }

  function TableAliases(t: TableRef): multiset<string>
    decreases t, 1
  {
    match t
    case TableName(_, ref) => AliasOf(ref)
    case TableSample(_, ref) => AliasOf(ref)
    case Subquery(_, q, ref) => QueryAliases(q) + AliasOf(ref)
    case Joined(l, r, cond) => TableAliases(l) + TableAliases(r) + CondAliases(cond)
  }

  function CondAliases(j: JoinCond): multiset<string>
    decreases j, 1
  {
    if j.ExprCond? then ExprAliases(j.search) else multiset{}
  }

  function AliasOf(r: Relation): multiset<string> {
    if r.AliasedRel? then multiset{r.alias} else multiset{}
  }

  function RefsAliases(refs: seq<Relation>): multiset<string> {
    if refs == [] then multiset{} else RefsAliases(refs[..|refs| - 1]) + AliasOf(refs[|refs| - 1])
  }

  function SetAliases(setList: seq<Assignment>): multiset<string> {
    if setList == [] then multiset{}
    else SetAliases(setList[..|setList| - 1]) + ExprAliases(setList[|setList| - 1].value)
  }

  function WhenAliases(w: When): multiset<string> {
    match w
    case WhenPlain(condition) => ExprAliases(condition)
    case WhenUpdate(condition, setList) => ExprAliases(condition) + SetAliases(setList)
    case WhenInsert(condition, values) => ExprAliases(condition) + ExprsAliases(values)
  }

  function WhensAliases(ws: seq<When>): multiset<string> {
    if ws == [] then multiset{} else WhensAliases(ws[..|ws| - 1]) + WhenAliases(ws[|ws| - 1])
  }

  function QueriesAliases(qs: seq<Query>): multiset<string> {
    if qs == [] then multiset{} else QueriesAliases(qs[..|qs| - 1]) + QueryAliases(qs[|qs| - 1])
  }

  function StmtAliases(s: Stmt): multiset<string> {
    match s
    case Select(q) => QueryAliases(q)
    case With(queries, refs, q) => QueriesAliases(queries) + RefsAliases(refs) + QueryAliases(q)
    case Insert(_, values) => ExprsAliases(values)
    case Upsert(_, values, setList, search) => ExprsAliases(values) + SetAliases(setList) + ExprAliases(search)
    case DeleteReturning(_, search, returning) => ExprAliases(search) + ExprsAliases(returning)
    case UpdateReturning(_, search, setList, returning) =>
      ExprAliases(search) + SetAliases(setList) + ExprsAliases(returning)
    case Merge(_, target, source, cond, clauses) =>
      AliasOf(target) + TableAliases(source) + CondAliases(cond) + WhensAliases(clauses)
  }

  // ---- Types ----

  /** A node's type is what its parts make it. */
  ghost predicate WellTyped(s: Schema, e: Expr) {
    match e
    case WindowFunction(aggregate, _, _, ty) => aggregate.Funcall? && aggregate.isAggregate && ty == aggregate.ty
    case Coalesce(_, first, second, ty) => first.ty == second.ty == ty
    case Funcall(proc, isAggregate, parms, ty) =>
      && proc in (if isAggregate then s.aggregates else s.routines)
      && (ty == proc.restype || s.consistent(ty, proc.restype)) && ty != s.internaltype
      && s.internaltype !in proc.argtypes && s.arraytype !in proc.argtypes
      && |parms| == |proc.argtypes| && forall i :: 0 <= i < |parms| ==> s.Meets(proc.argtypes[i], parms[i].ty)
    case AtomicSubselect(_, col, agg, ty) =>
      if agg.None? then ty == col.ty
      else
        && agg.value in s.aggregates && ty == agg.value.restype
        && |agg.value.argtypes| == 1 && s.consistent(agg.value.argtypes[0], col.ty)
    case CaseExpr(condition, trueExpr, falseExpr, ty) =>
      condition.ty == s.booltype && ty == trueExpr.ty && s.Agree(trueExpr.ty, falseExpr.ty)
    case ColumnReference(_, col, ty) => ty == col.ty
    case ConstExpr(_) => true
    case TruthValue(ty) => ty == s.booltype
    case NullPredicate(_, ty) => ty == s.booltype
    case ExistsPredicate(_, ty) => ty == s.booltype
    case BoolTerm(lhs, rhs, ty) => lhs.ty == rhs.ty == ty == s.booltype
    case ComparisonOp(oper, lhs, rhs, ty) =>
      && oper in s.operators && s.consistent(s.booltype, oper.result)
      && ty == s.booltype && s.Meets(oper.left, lhs.ty) && s.Meets(oper.right, rhs.ty)
      && (oper.left == oper.right ==> s.Agree(lhs.ty, rhs.ty))
  }

  // ---- Positions ----

  /** Where a node stands: the relations its column references may name, the
      tables its FROM items may name, its level, the number of lateral subqueries
      around it, and whether a window function may stand here. */
  datatype Ctx = Ctx(env: seq<Relation>, tables: seq<Relation>, level: nat, laterals: nat, window: bool) {
    ghost predicate LevelOk() { level <= 104 + 3 * laterals }

    function Down(): Ctx { this.(level := level + 1) }

    function With(refs: seq<Relation>): Ctx { this.(env := env + refs) }

    function NoWindow(): Ctx { this.(window := false) }
  }

  /** rel is visible, and nothing else visible goes by its name. */
  ghost predicate Resolves(env: seq<Relation>, rel: Relation) {
    rel in env && forall r :: r in env && r.Ident() == rel.Ident() ==> r == rel
  }

  /** The grammar in force while a statement is generated. */
  datatype Grammar = Grammar(schema: Schema, counts: Counts)

  ghost predicate GoodExpr(g: Grammar, c: Ctx, e: Expr)
    decreases e
  {
    && c.LevelOk() && WellTyped(g.schema, e)
    && match e
       case WindowFunction(aggregate, partitionBy, orderBy, _) =>
         && c.window && Matched(g.counts, "window_function")
         && GoodExpr(g, c.Down().NoWindow(), aggregate)
         && (forall x :: x in partitionBy ==> GoodExpr(g, c.Down().NoWindow(), x))
         && (forall x :: x in orderBy ==> GoodExpr(g, c.Down().NoWindow(), x))
       case Coalesce(_, first, second, _) =>
         GoodExpr(g, c.Down(), first) && GoodExpr(g, c.Down(), second)
       case Funcall(_, _, parms, _) => forall x :: x in parms ==> GoodExpr(g, c.Down(), x)
       case AtomicSubselect(tab, col, _, _) =>
         Matched(g.counts, "atomic_subselect") && tab in g.schema.tables && col in tab.columns
       case CaseExpr(condition, t, f, _) =>
         GoodExpr(g, c.Down(), condition) && GoodExpr(g, c.Down(), t) && GoodExpr(g, c.Down(), f)
       case ColumnReference(rel, col, _) =>
         Resolves(c.env, rel) && col in rel.Columns()
       case ConstExpr(_) => true
       case TruthValue(_) => true
       case NullPredicate(x, _) => GoodExpr(g, c.Down(), x)
       case ExistsPredicate(q, _) => GoodQuery(g, c.Down(), q)
       case BoolTerm(l, r, _) => GoodExpr(g, c.Down(), l) && GoodExpr(g, c.Down(), r)
       case ComparisonOp(_, l, r, _) => GoodExpr(g, c.Down(), l) && GoodExpr(g, c.Down(), r)
  }

  /** The from_clause and select_list nodes sit one level below the query; their
      contents two levels below. Only the first FROM item may be something else
      than a lateral subquery, and only lateral ones see the items before them. */
  ghost predicate GoodQuery(g: Grammar, c: Ctx, q: Query)
    decreases q
  {
    var inner := c.With(RefsAll(q.from));
    && c.LevelOk() && q.from != [] && q.select != []
    && (forall i :: 0 <= i < |q.from| ==> i == 0 || IsLateral(q.from[i]))
    && (forall i :: 0 <= i < |q.from| ==>
          GoodTableRef(g, ItemCtx(c.Down().Down().NoWindow(), q.from, i), q.from[i]))
    && (forall e :: e in q.select ==> GoodExpr(g, inner.Down().Down().(window := true), e))
    && GoodExpr(g, inner.Down().NoWindow(), q.search) && q.search.ty == g.schema.booltype
  }

  predicate IsLateral(t: TableRef) { t.Subquery? && t.lateral }

  function ItemCtx(c: Ctx, items: seq<TableRef>, i: nat): Ctx
    requires i < |items|
  {
    if IsLateral(items[i]) then c.With(RefsAll(items[..i])) else c
  }

  ghost predicate GoodTableRef(g: Grammar, c: Ctx, t: TableRef)
    decreases t
  {
    && c.LevelOk()
    && match t
       case TableName(rel, ref) => rel in c.tables && Renames(ref, rel.Columns())
       case TableSample(sampled, ref) =>
         && Matched(g.counts, "table_sample")
         && sampled in g.schema.tables && sampled.baseTable && Renames(ref, sampled.columns)
       case Subquery(lateral, q, ref) =>
         && (lateral ==> Matched(g.counts, "lateral_subquery"))
         && GoodQuery(g, if lateral then c.Down().(laterals := c.laterals + 1) else c.Down(), q)
         && Renames(ref, DerivedColumns(q.select))
       case Joined(l, r, cond) =>
         && GoodTableRef(g, c.Down(), l) && GoodTableRef(g, c.Down(), r)
         && GoodCond(g, c.Down(), Refs(l), Refs(r), cond)
  }

  ghost predicate Renames(ref: Relation, cols: seq<Column>) {
    ref.AliasedRel? && ref.cols == cols
  }

  /** A simple condition relates the two sides; any other one sees both of them. */
  ghost predicate GoodCond(g: Grammar, c: Ctx, left: seq<Relation>, right: seq<Relation>, j: JoinCond)
    decreases j
  {
    var inner := c.With(left + right);
    && c.LevelOk()
    && match j
       case SimpleCond(lr, lc, rr, rc) =>
         && lr in left && Resolves(inner.env, lr) && lc in lr.Columns()
         && rr in right && Resolves(inner.env, rr) && rc in rr.Columns() && lc.ty == rc.ty
       case ExprCond(search) => GoodExpr(g, inner.Down(), search) && search.ty == g.schema.booltype
  }

  /** The columns of a select list are named c0, c1, and so on. */
  function DerivedColumns(select: seq<Expr>): (cols: seq<Column>)
    ensures |cols| == |select|
  {
    if select == [] then []
    else
      var n := |select| - 1;
      DerivedColumns(select[..n]) + [Column("c" + Decimal(n), select[n].ty)]
  }

  function Decimal(n: nat): string {
    if n < 10 then [Digit(n)] else Decimal(n / 10) + [Digit(n % 10)]
  }

  function Digit(d: nat): char
    requires d < 10
  {
    "0123456789"[d]
  }

  /** WHERE, ON and WHEN take Boolean expressions. */
  ghost predicate GoodCondition(g: Grammar, c: Ctx, e: Expr) {
    GoodExpr(g, c, e) && e.ty == g.schema.booltype
  }

  // ---- Statements ----

  /** The position of a top-level statement. */
  function Top(tables: seq<Relation>): Ctx { Ctx([], tables, 0, 0, false) }

  /** Columns of the table are set, to values of their type. */
  ghost predicate GoodSet(g: Grammar, c: Ctx, target: Table, setList: seq<Assignment>) {
    && setList != []
    && forall a :: a in setList ==> GoodAssignment(g, c, target, a)
  }

  ghost predicate GoodAssignment(g: Grammar, c: Ctx, target: Table, a: Assignment) {
    && GoodExpr(g, c, a.value)
    && a.column in target.columns && g.schema.Meets(a.column.ty, a.value.ty)
  }

  ghost predicate GoodWhen(g: Grammar, c: Ctx, victim: Table, target: Relation, w: When) {
    && GoodCondition(g, c.Down(), w.condition)
    && match w
       case WhenPlain(_) => true
       case WhenUpdate(_, setList) => GoodSet(g, c.With([target]).Down().Down(), victim, setList)
       case WhenInsert(_, values) => GoodValues(g, c.Down(), victim, values)
  }

  /** One value per column, of the column's type. */
  ghost predicate GoodValues(g: Grammar, c: Ctx, victim: Table, values: seq<Expr>) {
    && |values| == |victim.columns|
    && forall i :: 0 <= i < |values| ==> GoodExpr(g, c, values[i]) && values[i].ty == victim.columns[i].ty
  }

  ghost predicate GoodReturning(g: Grammar, c: Ctx, returning: seq<Expr>) {
    returning != [] && forall e :: e in returning ==> GoodExpr(g, c, e)
  }

  ghost predicate GoodVictim(tables: seq<Relation>, victim: Table) {
    BaseRel(victim) in tables && victim.schema != "pg_catalog" && victim.baseTable && victim.columns != []
  }

  /** The victim of a DELETE or UPDATE is visible by its own name; the data source
      and target of a MERGE by their aliases. */
  ghost predicate GoodTree(g: Grammar, tables: seq<Relation>, s: Stmt) {
    var c := Top(tables);
    match s
    case Select(q) => GoodQuery(g, c, q)
    case With(queries, refs, q) =>
      && queries != [] && |refs| == |queries|
      && (forall i :: 0 <= i < |queries| ==>
            GoodQuery(g, c.Down(), queries[i]) && Renames(refs[i], DerivedColumns(queries[i].select)))
      && exists more ::
           (forall r :: r in more ==> r in tables) && GoodQuery(g, c.(tables := tables + refs + more).Down(), q)
    case Insert(victim, values) =>
      GoodVictim(tables, victim) && Matched(g.counts, "insert_stmt") && GoodValues(g, c.Down(), victim, values)
    case Upsert(victim, values, setList, search) =>
      && GoodVictim(tables, victim) && Matched(g.counts, "insert_stmt") && Matched(g.counts, "upsert_stmt")
      && GoodValues(g, c.Down(), victim, values)
      && GoodSet(g, c.Down().Down(), victim, setList) && GoodCondition(g, c.Down(), search)
    case DeleteReturning(victim, search, returning) =>
      && GoodVictim(tables, victim) && Matched(g.counts, "delete_returning")
      && GoodCondition(g, c.With([BaseRel(victim)]).Down(), search)
      && GoodReturning(g, c.With([BaseRel(victim)]).Down().Down(), returning)
    case UpdateReturning(victim, search, setList, returning) =>
      && GoodVictim(tables, victim) && Matched(g.counts, "update_returning")
      && GoodCondition(g, c.With([BaseRel(victim)]).Down(), search)
      && GoodSet(g, c.With([BaseRel(victim)]).Down().Down(), victim, setList)
      && GoodReturning(g, c.With([BaseRel(victim)]).Down().Down(), returning)
    case Merge(victim, target, source, cond, clauses) =>
      && GoodVictim(tables, victim) && Matched(g.counts, "merge_stmt") && Renames(target, victim.columns)
      && GoodTableRef(g, c.Down(), source)
      && cond.SimpleCond? && GoodCond(g, c.Down(), [target], Refs(source), cond)
      && clauses != [] && forall w :: w in clauses ==> GoodWhen(g, c.Down(), victim, target, w)
  }

  /** No alias is introduced twice anywhere in the statement. */
  ghost predicate DistinctAliases(s: Stmt) {
    forall alias :: StmtAliases(s)[alias] <= 1
  }

  ghost predicate GoodStmt(g: Grammar, tables: seq<Relation>, s: Stmt) {
    GoodTree(g, tables, s) && DistinctAliases(s)
  }
}
