/**
  Productions under construction (prod.cc), the dice, and what every grammar
  method promises about the state it touches.
 */
module SmithProd {
  import opened Impedance
  import opened SmithAst
  import opened SmithScope

  /** How building a production ends: with a tree, with a runtime_error that some
      factory above may catch, with a failed assertion, or unfinished because the
      budget of steps granted to the run is used up. */
  datatype Result<+T> = Ok(value: T) | Fail | Abort | Stuck {
    predicate IsFailure() { !Ok? }

    function PropagateFailure<U>(): Result<U>
      requires !Ok?
    {
      match this
      case Fail => Fail
      case Abort => Abort
      case Stuck => Stuck
    }

    function Extract(): T
      requires Ok?
    {
      value
    }
  }

  /** The run-time classes that window_function::allowed() asks for. */
  datatype Kind = SelectListKind | QueryKind | WindowKind | ValueKind | OtherKind

  class Prod {
    const pprod: Prod?
    const kind: Kind
    const level: nat
    const scope: Scope
    var retries: nat
    var retryLimit: nat

    /** The number of lateral subqueries this production stands in. */
    ghost const laterals: nat

    /** prod(parent): one level deeper, in the parent's scope. */
    constructor Child(parent: Prod, kind: Kind)
      ensures pprod == parent && this.kind == kind
      ensures level == parent.level + 1 && scope == parent.scope && laterals == parent.laterals
      ensures retries == 0 && retryLimit == 100
    {
      pprod, this.kind := parent, kind;
      level, scope := parent.level + 1, parent.scope;
      retries, retryLimit := 0, 100;
      laterals := parent.laterals;
    }

    /** A production that brings its own scope, possibly at the top. */
    constructor Scoped(parent: Prod?, kind: Kind, scope: Scope, ghost laterals: nat)
      ensures pprod == parent && this.kind == kind
      ensures level == (if parent == null then 0 else parent.level + 1)
      ensures this.scope == scope && this.laterals == laterals
      ensures retries == 0 && retryLimit == 100
    {
      pprod, this.kind := parent, kind;
      level, this.scope := if parent == null then 0 else parent.level + 1, scope;
      retries, retryLimit := 0, 100;
      this.laterals := laterals;
    }

    /** prod::retry(): the budget is retryLimit + 1 retries. */
    method Retry() returns (r: Result<()>)
      modifies this`retries
      ensures retries == old(retries) + 1
      ensures r == if old(retries) <= retryLimit then Ok(()) else Fail
    {
      r := if retries <= retryLimit then Ok(()) else Fail;
      retries := retries + 1;
    }
  }

  /** window_function::allowed(): below the select list of a query, through value
      expressions other than window functions. Parents are on lower levels. */
  predicate Allowed(p: Prod)
    decreases p.level
  {
    match p.kind
    case SelectListKind => p.pprod != null && p.pprod.kind == QueryKind
    case ValueKind => p.pprod != null && p.pprod.level < p.level && Allowed(p.pprod)
    case _ => false
  }

  /** The position of a child of p. */
  ghost function CtxOf(p: Prod): Ctx
    reads p.scope
  {
    Ctx(p.scope.refs, p.scope.tables, p.level + 1, p.laterals, Allowed(p))
  }

  /** prod::match(). */
  method Match(g: Grammar, name: string) returns (r: Result<()>)
    ensures r.Ok? <==> Matched(g.counts, name)
    ensures r.Ok? || r.Fail?
  {
    r := if Matched(g.counts, name) then Ok(()) else Fail;
  }

  /** Any outcome of a die. */
  method D(sides: nat) returns (d: nat)
    requires sides > 0
    ensures 1 <= d <= sides
  {
    d :| 1 <= d <= sides;
  }

  /** p->level < d6() */
  method BelowD6(level: nat) returns (b: bool)
    ensures b ==> level <= 5
  {
    var d := D(6);
    b := level < d;
  }

  /** How often a loop governed by a die repeats: any number of times. */
  method Repeats() returns (n: nat)
  {
    n := *;
  }

  /** random_pick(): throws when there is nothing to pick. */
  method Pick<T>(s: seq<T>) returns (r: Result<T>)
    ensures r.Ok? ==> r.value in s
    ensures r.Fail? <==> s == []
    ensures r.Ok? || r.Fail?
  {
    if s == [] { return Fail; }
    var i :| 0 <= i < |s|;
    return Ok(s[i]);
  }

  method PickSome<T>(s: seq<T>) returns (x: T)
    requires s != []
    ensures x in s
  {
    var i :| 0 <= i < |s|;
    x := s[i];
  }

  /** random_pick() among the lists of an index, and then in that list. */
  method PickAny<T>(m: map<TypeId, seq<T>>) returns (r: Result<T>)
    ensures r.Ok? ==> exists t :: t in m && r.value in m[t]
    ensures r.Ok? || r.Fail?
  {
    if m == map[] { return Fail; }
    assert m.Keys != {};
    var t :| t in m;
    r := Pick(m[t]);
  }

  method PickAt<T>(m: map<TypeId, seq<T>>, t: TypeId) returns (r: Result<T>)
    ensures r.Ok? ==> t in m && r.value in m[t]
    ensures r.Ok? || r.Fail?
  {
    if t !in m { return Fail; }
    r := Pick(m[t]);
  }

}
