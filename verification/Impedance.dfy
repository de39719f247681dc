/** Feedback about failed productions (impedance.cc). */
module Impedance {
  /** In how many failed and in how many successful statements each production
      has occurred. */
  datatype Counts = Counts(failed: map<string, nat>, ok: map<string, nat>)

  function Count(m: map<string, nat>, name: string): nat {
    if name in m then m[name] else 0
  }

  /** impedance::matched(): a production is used until it has failed 100 times at
      an error rate above 0.99. */
  predicate Matched(c: Counts, name: string) {
    var bad, ok := Count(c.failed, name), Count(c.ok, name);
    100 > bad || 100 * bad <= 99 * (bad + ok)
  }

  /** A production is blacklisted from 100 failures on, as long as there are more
      than 99 of them to every success. */
  lemma BlacklistedWhen(c: Counts, name: string)
    ensures
      var bad, ok := Count(c.failed, name), Count(c.ok, name);
      Matched(c, name) <==> bad < 100 || bad <= 99 * ok
  {
  }

  /** Every name found is counted once more. */
  ghost predicate Bumped(before: map<string, nat>, found: set<string>, after: map<string, nat>) {
    forall name :: Count(after, name) == Count(before, name) + if name in found then 1 else 0
  }

  /** The static counters and the impedance_feedback logger. */
  class Feedback {
    var failed: map<string, nat>
    var ok: map<string, nat>

    constructor ()
      ensures failed == map[] && ok == map[]
    {
      failed, ok := map[], map[];
    }

    function Now(): Counts
      reads this
    {
      Counts(failed, ok)
    }

    /** impedance_feedback::executed(): the visitor's destructor counts each
        production found in the statement once. */
    method Executed(found: set<string>)
      modifies this`ok
      ensures Bumped(old(ok), found, ok)
    {
      var rest := found;
      while rest != {}
        invariant rest <= found && Bumped(old(ok), found - rest, ok)
        decreases rest
      {
        var name :| name in rest;
        ok := ok[name := Count(ok, name) + 1];
        rest := rest - {name};
      }
      assert found - {} == found;
    }

    /** impedance_feedback::error(). */
    method Error(found: set<string>)
      modifies this`failed
      ensures Bumped(old(failed), found, failed)
    {
      var rest := found;
      while rest != {}
        invariant rest <= found && Bumped(old(failed), found - rest, failed)
        decreases rest
      {
        var name :| name in rest;
        failed := failed[name := Count(failed, name) + 1];
        rest := rest - {name};
      }
      assert found - {} == found;
    }
  }
}
