/** The type indexes the generator trusts (schema.cc). */
module SmithSchema {
  import opened SmithAst

  datatype Indexes = Indexes(
    aggregatesReturning: map<TypeId, seq<Routine>>,
    routinesReturning: map<TypeId, seq<Routine>>,
    parameterlessReturning: map<TypeId, seq<Routine>>,
    tablesWithColumns: map<TypeId, seq<Table>>,
    operatorsReturning: map<TypeId, seq<Oper>>,
    baseTables: seq<Table>)

  /** x is listed under t exactly when t is a type of the schema that accepts x,
      and no list is empty. */
  ghost predicate IsIndex<T(!new)>(m: map<TypeId, seq<T>>, types: seq<TypeId>, all: seq<T>,
                                   accepts: (TypeId, T) -> bool)
  {
    && (forall t, x :: Listed(m, t, x) <==> t in types && x in all && accepts(t, x))
    && forall t :: t in m ==> m[t] != []
  }

  ghost predicate Listed<T>(m: map<TypeId, seq<T>>, t: TypeId, x: T) {
    t in m && x in m[t]
  }

  ghost predicate IndexesOf(s: Schema, idx: Indexes) {
    && IsIndex(idx.aggregatesReturning, s.types, s.aggregates, Returns(s))
    && IsIndex(idx.routinesReturning, s.types, s.routines, Returns(s))
    && IsIndex(idx.parameterlessReturning, s.types, s.routines, ReturnsBare(s))
    && IsIndex(idx.tablesWithColumns, s.types, s.tables, HasColumn(s))
    && IsIndex(idx.operatorsReturning, s.types, s.operators, OperReturns(s))
    && forall t :: t in idx.baseTables <==> t in s.tables && t.baseTable
  }

  /** What is listed under a type. */
  lemma IndexMeaning(s: Schema, idx: Indexes, t: TypeId, r: Routine, tab: Table, o: Oper)
    requires IndexesOf(s, idx)
    ensures Listed(idx.aggregatesReturning, t, r) <==> t in s.types && r in s.aggregates && s.consistent(t, r.restype)
    ensures Listed(idx.routinesReturning, t, r) <==> t in s.types && r in s.routines && s.consistent(t, r.restype)
    ensures Listed(idx.parameterlessReturning, t, r) <==>
      t in s.types && r in s.routines && s.consistent(t, r.restype) && |r.argtypes| == 0
    ensures Listed(idx.tablesWithColumns, t, tab) <==>
      t in s.types && tab in s.tables && exists i :: 0 <= i < |tab.columns| && s.consistent(t, tab.columns[i].ty)
    ensures Listed(idx.operatorsReturning, t, o) <==> t in s.types && o in s.operators && s.consistent(t, o.result)
  {
    hide IsIndex, Listed;
    IndexListed(idx.aggregatesReturning, s.types, s.aggregates, Returns(s), t, r);
    IndexListed(idx.routinesReturning, s.types, s.routines, Returns(s), t, r);
    IndexListed(idx.parameterlessReturning, s.types, s.routines, ReturnsBare(s), t, r);
    IndexListed(idx.tablesWithColumns, s.types, s.tables, HasColumn(s), t, tab);
    IndexListed(idx.operatorsReturning, s.types, s.operators, OperReturns(s), t, o);
  }

  lemma IndexListed<T(!new)>(m: map<TypeId, seq<T>>, types: seq<TypeId>, all: seq<T>,
                             accepts: (TypeId, T) -> bool, t: TypeId, x: T)
    requires IsIndex(m, types, all, accepts)
    ensures Listed(m, t, x) <==> t in types && x in all && accepts(t, x)
  {
    hide Listed;
  }

  function Returns(s: Schema): (TypeId, Routine) -> bool {
    (t: TypeId, r: Routine) => s.consistent(t, r.restype)
  }

  function ReturnsBare(s: Schema): (TypeId, Routine) -> bool {
    (t: TypeId, r: Routine) => s.consistent(t, r.restype) && r.argtypes == []
  }

  function HasColumn(s: Schema): (TypeId, Table) -> bool {
    (t: TypeId, tab: Table) => exists c :: c in tab.columns && s.consistent(t, c.ty)
  }

  function OperReturns(s: Schema): (TypeId, Oper) -> bool {
    (t: TypeId, o: Oper) => s.consistent(t, o.result)
  }

  /** One inner loop: the entries accepted by `type` are pushed onto its list,
      which comes into being with the first of them. */
  method PushAccepted<T(!new)>(m: map<TypeId, seq<T>>, ty: TypeId, all: seq<T>, accepts: (TypeId, T) -> bool)
    returns (m': map<TypeId, seq<T>>)
    requires forall t :: t in m ==> m[t] != []
    ensures forall t :: t in m' ==> m'[t] != []
    ensures forall t, x :: Listed(m', t, x) <==> Listed(m, t, x) || (t == ty && x in all && accepts(t, x))
  {
    m' := m;
    for i := 0 to |all|
      invariant forall t :: t in m' ==> m'[t] != []
      invariant forall t, x :: Listed(m', t, x) <==> Listed(m, t, x) || (t == ty && x in all[..i] && accepts(t, x))
    {
      var x := all[i];
      assert all[..i + 1] == all[..i] + [x];
      if accepts(ty, x) {
        ghost var before := m';
        m' := m'[ty := (if ty in m' then m'[ty] else []) + [x]];
        assert forall t, y :: Listed(m', t, y) <==> Listed(before, t, y) || (t == ty && y == x);
      }
    }
    assert all[..|all|] == all;
  }

  /** schema::generate_indexes(). */
  method GenerateIndexes(s: Schema) returns (idx: Indexes)
    ensures IndexesOf(s, idx)
  {
    hide Returns, ReturnsBare, HasColumn, OperReturns;
    var aggs, rous, pars, tabs, opers := map[], map[], map[], map[], map[];
    for i := 0 to |s.types|
      invariant IsIndex(aggs, s.types[..i], s.aggregates, Returns(s))
      invariant IsIndex(rous, s.types[..i], s.routines, Returns(s))
      invariant IsIndex(pars, s.types[..i], s.routines, ReturnsBare(s))
      invariant IsIndex(tabs, s.types[..i], s.tables, HasColumn(s))
      invariant IsIndex(opers, s.types[..i], s.operators, OperReturns(s))
    {
      aggs := IndexStep(aggs, s.types, i, s.aggregates, Returns(s));
      rous := IndexStep(rous, s.types, i, s.routines, Returns(s));
      pars := IndexStep(pars, s.types, i, s.routines, ReturnsBare(s));
      tabs := IndexStep(tabs, s.types, i, s.tables, HasColumn(s));
      opers := IndexStep(opers, s.types, i, s.operators, OperReturns(s));
    }
    var base := [];
    for i := 0 to |s.tables|
      invariant forall t :: t in base <==> t in s.tables[..i] && t.baseTable
    {
      assert s.tables[..i + 1] == s.tables[..i] + [s.tables[i]];
      if s.tables[i].baseTable {
        base := base + [s.tables[i]];
      }
    }
    assert s.types[..|s.types|] == s.types && s.tables[..|s.tables|] == s.tables;
    idx := Indexes(aggs, rous, pars, tabs, opers, base);
  }

  method IndexStep<T(!new)>(m: map<TypeId, seq<T>>, types: seq<TypeId>, i: nat, all: seq<T>,
                            accepts: (TypeId, T) -> bool)
    returns (m': map<TypeId, seq<T>>)
    requires i < |types| && IsIndex(m, types[..i], all, accepts)
    ensures IsIndex(m', types[..i + 1], all, accepts)
  {
    m' := PushAccepted(m, types[i], all, accepts);
    assert types[..i + 1] == types[..i] + [types[i]];
  }
}
