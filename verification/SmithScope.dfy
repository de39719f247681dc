/**
  Scopes, statement-unique names and productions under construction
  (relmodel.hh, prod.cc). Scopes copy their parent's relations but share its
  name counters.
 */
module SmithScope {
  import opened SmithAst

  // ---- Statement-unique names ----

  /** stmt_uid(): prefix, underscore, counter. */
  function UidName(prefix: string, n: nat): string {
    prefix + "_" + Decimal(n)
  }

  /** The prefixes in use contain no underscore (and no dot). */
  predicate PlainPrefix(prefix: string) {
    '_' !in prefix && '.' !in prefix
  }

  function Value(digits: string): nat {
    if digits == "" then 0
    else 10 * Value(digits[..|digits| - 1]) + DigitValue(digits[|digits| - 1])
  }

  function DigitValue(c: char): nat {
    if '0' <= c <= '9' then (c - '0') as nat else 0
  }

  lemma {:induction false} DecimalValue(n: nat)
    ensures Value(Decimal(n)) == n
    ensures '_' !in Decimal(n) && '.' !in Decimal(n)
  {
    if n < 10 {
      assert Decimal(n)[..0] == "";
    } else {
      DecimalValue(n / 10);
      var d := Decimal(n);
      assert d[..|d| - 1] == Decimal(n / 10) && d[|d| - 1] == Digit(n % 10);
      assert DigitValue(Digit(n % 10)) == n % 10;
    }
  }

  /** Different prefixes or different counters give different names. */
  lemma UidNameInjective(p1: string, n1: nat, p2: string, n2: nat)
    requires PlainPrefix(p1) && PlainPrefix(p2)
    requires UidName(p1, n1) == UidName(p2, n2)
    ensures p1 == p2 && n1 == n2
  {
    var name := UidName(p1, n1);
    assert name[|p1|] == '_' && name[|p2|] == '_';
    assert |p1| == |p2|;
    assert p1 == name[..|p1|] && p2 == name[..|p2|];
    assert Decimal(n1) == name[|p1| + 1..] && Decimal(n2) == name[|p2| + 1..];
    DecimalValue(n1);
    DecimalValue(n2);
  }

  /** The counter is a 32-bit one in the source: n names drawn from one prefix are
      distinct exactly as long as it has not wrapped around. */
  lemma WrappingNamesDistinct(prefix: string, n: nat)
    requires PlainPrefix(prefix)
    ensures (forall i, j :: 0 <= i < j < n ==> WrappedName(prefix, i) != WrappedName(prefix, j)) <==> n <= 0x1_0000_0000
  {
    hide UidName;
    if n <= 0x1_0000_0000 {
      forall i, j | 0 <= i < j < n
        ensures WrappedName(prefix, i) != WrappedName(prefix, j)
      {
        if UidName(prefix, i) == UidName(prefix, j) {
          UidNameInjective(prefix, i, prefix, j);
        }
      }
    } else {
      assert WrappedName(prefix, 0) == WrappedName(prefix, 0x1_0000_0000);
    }
  }

  /** The i-th name under a 32-bit counter. */
  function WrappedName(prefix: string, i: nat): string {
    UidName(prefix, i % 0x1_0000_0000)
  }

  ghost predicate Distinct<T>(s: seq<T>) {
    forall i, j :: 0 <= i < j < |s| ==> s[i] != s[j]
  }

  lemma DistinctAppend<T>(s: seq<T>, x: T)
    requires Distinct(s) && forall y :: y in s ==> y != x
    ensures Distinct(s + [x])
  {
    var t := s + [x];
    forall i, j | 0 <= i < j < |t|
      ensures t[i] != t[j]
    {
      assert t[i] == s[i] && s[i] in s;
    }
  }

  /** The counters behind stmt_uid(), shared by all scopes of a statement. */
  class StmtSeq {
    var counters: map<string, nat>

    /** Every name handed out since new_stmt(), kept or thrown away. */
    ghost var issued: seq<string>

    ghost predicate IsIssued(name: string)
      reads this
    {
      exists prefix, n ::
        && PlainPrefix(prefix) && prefix in counters && n < counters[prefix]
        && name == UidName(prefix, n)
    }

    ghost predicate Valid()
      reads this
    {
      && Distinct(issued)
      && forall name :: name in issued ==> IsIssued(name)
    }

    constructor ()
      ensures Valid() && issued == [] && counters == map[]
    {
      counters := map[];
      issued := [];
    }

    /** A name never issued before in this statement. */
    method Uid(prefix: string) returns (name: string)
      requires Valid() && PlainPrefix(prefix)
      modifies this
      ensures Valid() && issued == old(issued) + [name]
      ensures '.' !in name
      ensures
        var n := if prefix in old(counters) then old(counters)[prefix] else 0;
        name == UidName(prefix, n) && counters == old(counters)[prefix := n + 1]
    {
      var n := if prefix in counters then counters[prefix] else 0;
      name := UidName(prefix, n);
      DecimalValue(n);
      forall other | other in issued
        ensures other != name
      {
        var p, k :| PlainPrefix(p) && p in counters && k < counters[p] && other == UidName(p, k);
        if other == name {
          UidNameInjective(p, k, prefix, n);
        }
      }
      DistinctAppend(issued, name);
      var counters' := counters[prefix := n + 1];
      assert UidName(prefix, n) == name && n < counters'[prefix];
      forall other | other in issued
        ensures exists p, k :: PlainPrefix(p) && p in counters' && k < counters'[p] && other == UidName(p, k)
      {
        var p, k :| PlainPrefix(p) && p in counters && k < counters[p] && other == UidName(p, k);
        assert p in counters' && k < counters'[p];
      }
      counters := counters';
      issued := issued + [name];
    }
  }

  // ---- Names in use ----

  /** The names are among those issued after the first n, none of them used twice. */
  ghost predicate Issued(names: multiset<string>, issued: seq<string>, n: nat) {
    n <= |issued| && names <= multiset(issued[n..])
  }

  lemma IssuedNone(issued: seq<string>, n: nat)
    requires n <= |issued|
    ensures Issued(multiset{}, issued, n)
  {
  }

  lemma IssuedLast(name: string, before: seq<string>, issued: seq<string>)
    requires issued == before + [name]
    ensures Issued(multiset{name}, issued, |before|)
  {
    assert issued[|before|..] == [name];
  }

  /** What was issued in two stretches can be used together. */
  lemma IssuedBoth(a: multiset<string>, b: multiset<string>, mid: seq<string>, issued: seq<string>, n: nat)
    requires Issued(a, mid, n) && mid <= issued && Issued(b, issued, |mid|)
    ensures Issued(a + b, issued, n) && Issued(b + a, issued, n)
  {
    assert issued[n..] == mid[n..] + issued[|mid|..];
    assert a + b == b + a;
  }

  lemma IssuedPart(a: multiset<string>, b: multiset<string>, issued: seq<string>, n: nat)
    requires Issued(a + b, issued, n)
    ensures Issued(a, issued, n) && Issued(b, issued, n)
  {
  }

  lemma IssuedSince(a: multiset<string>, issued: seq<string>, n: nat, m: nat)
    requires n <= m && Issued(a, issued, m)
    ensures Issued(a, issued, n)
  {
    assert issued[n..] == issued[n..m] + issued[m..];
  }

  lemma {:induction false} DistinctOnce(s: seq<string>, x: string)
    requires Distinct(s)
    ensures multiset(s)[x] <= 1
  {
    if s != [] {
      var k := |s| - 1;
      DistinctOnce(s[..k], x);
      assert s == s[..k] + [s[k]];
      if s[k] == x {
        assert x !in s[..k];
      }
    }
  }

  /** Distinct names, used at most once each. */
  lemma IssuedOnce(names: multiset<string>, issued: seq<string>, x: string)
    requires Distinct(issued) && Issued(names, issued, 0)
    ensures names[x] <= 1
  {
    assert issued[0..] == issued;
    DistinctOnce(issued, x);
  }

  // ---- Scopes ----

  ghost predicate DistinctIdents(refs: seq<Relation>) {
    forall i, j :: 0 <= i < j < |refs| ==> refs[i].Ident() != refs[j].Ident()
  }

  /** Aliases were issued; tables go by a dotted name, which no alias has. */
  ghost predicate Known(r: Relation, issued: seq<string>) {
    r.AliasedRel? ==> r.alias in issued && '.' !in r.alias
  }

  /** New relations: aliases issued after the first n, all different. */
  ghost predicate NewRefs(refs: seq<Relation>, issued: seq<string>, n: nat) {
    && n <= |issued| && DistinctIdents(refs)
    && forall r :: r in refs ==> r.AliasedRel? && r.alias in issued[n..] && '.' !in r.alias
  }

  lemma ResolvesInDistinct(env: seq<Relation>, rel: Relation)
    requires DistinctIdents(env) && rel in env
    ensures Resolves(env, rel)
  {
  }

  /** Adding new relations to known ones keeps names unambiguous. */
  lemma NewRefsDistinct(env: seq<Relation>, refs: seq<Relation>, issued: seq<string>, n: nat)
    requires Distinct(issued) && NewRefs(refs, issued, n)
    requires DistinctIdents(env) && forall r :: r in env ==> Known(r, issued[..n])
    ensures DistinctIdents(env + refs)
    ensures forall r :: r in env + refs ==> Known(r, issued)
  {
    forall i, j | 0 <= i < |env| && 0 <= j < |refs|
      ensures env[i].Ident() != refs[j].Ident()
    {
      assert refs[j].alias in issued[n..];
      if env[i].AliasedRel? {
        assert Known(env[i], issued[..n]);
      } else {
        assert '.' in env[i].Ident();
      }
    }
    var all := env + refs;
    forall i, j | 0 <= i < j < |all|
      ensures all[i].Ident() != all[j].Ident()
    {
      if j < |env| {
        assert all[i] == env[i] && all[j] == env[j];
      } else if i < |env| {
        assert all[i] == env[i] && all[j] == refs[j - |env|];
      } else {
        assert all[i] == refs[i - |env|] && all[j] == refs[j - |env|];
      }
    }
  }

  class Scope {
    /** Available to FROM items, and to column references. */
    var tables: seq<Relation>
    var refs: seq<Relation>
    var stmtSeq: StmtSeq

    ghost predicate Valid()
      reads this, stmtSeq
    {
      && stmtSeq.Valid()
      && DistinctIdents(refs)
      && forall r :: r in refs ==> Known(r, stmtSeq.issued)
    }

    /** scope(): a top-level scope filled with the schema's tables. */
    constructor TopLevel(tables: seq<Relation>)
      ensures Valid() && this.tables == tables && refs == []
      ensures fresh(stmtSeq)
    {
      this.tables := tables;
      refs := [];
      stmtSeq := new StmtSeq();
    }

    /** scope(parent): copies the relations, shares the counters. */
    constructor (parent: Scope)
      requires parent.Valid()
      ensures Valid()
      ensures tables == parent.tables && refs == parent.refs && stmtSeq == parent.stmtSeq
    {
      tables, refs, stmtSeq := parent.tables, parent.refs, parent.stmtSeq;
    }

    /** new_stmt(): counters start over. */
    method NewStmt()
      modifies this`stmtSeq
      ensures fresh(stmtSeq) && stmtSeq.Valid() && stmtSeq.issued == [] && stmtSeq.counters == map[]
      ensures refs == [] ==> Valid()
    {
      stmtSeq := new StmtSeq();
    }
  }
}
