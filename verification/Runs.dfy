/** Runs of the festival: any sequence of requests from an initial database. */
module Runs {
  import opened Entities
  import opened Steps

  function Last(steps: seq<Step>): Step
    requires steps != []
  {
    steps[|steps| - 1]
  }

  function Before(steps: seq<Step>): seq<Step>
    requires steps != []
  {
    steps[..|steps| - 1]
  }

  /** The database after the requests, in order. */
  ghost function Run(db: Db, steps: seq<Step>): Db {
    if steps == [] then db else Next(Run(db, Before(steps)), Last(steps))
  }

  ghost predicate ValidRun(db: Db, steps: seq<Step>) {
    steps != [] ==> ValidRun(db, Before(steps)) && Enabled(Run(db, Before(steps)), Last(steps))
  }

  /** Every database of every run satisfies the invariant. */
  lemma {:induction false} RunKeepsInv(db: Db, steps: seq<Step>)
    requires Inv(db) && ValidRun(db, steps)
    ensures Inv(Run(db, steps))
  {
    if steps != [] {
      RunKeepsInv(db, Before(steps));
      StepKeepsInv(Run(db, Before(steps)), Last(steps));
    }
  }

  lemma {:induction false} RunAppends(db: Db, first: seq<Step>, second: seq<Step>)
    requires ValidRun(db, first + second)
    ensures ValidRun(db, first) && ValidRun(Run(db, first), second)
    ensures Run(db, first + second) == Run(Run(db, first), second)
  {
    if second == [] {
      assert first + second == first;
    } else {
      assert Before(first + second) == first + Before(second);
      RunAppends(db, first, Before(second));
    }
  }

  lemma RunExtends(db: Db, steps: seq<Step>, s: Step)
    requires ValidRun(db, steps) && Enabled(Run(db, steps), s)
    ensures ValidRun(db, steps + [s]) && Run(db, steps + [s]) == Next(Run(db, steps), s)
  {
    assert Before(steps + [s]) == steps;
  }
}
