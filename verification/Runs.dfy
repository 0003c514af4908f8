/** Runs of a machine: a start and the steps taken, for any way `f` of taking one. */
module Runs {
  function After<S, A>(f: (S, A) -> S, s: S, steps: seq<A>): S {
    if steps == [] then s else f(After(f, s, steps[..|steps| - 1]), steps[|steps| - 1])
  }

  lemma {:induction false} AfterConcat<S, A>(f: (S, A) -> S, s: S, a: seq<A>, b: seq<A>)
    ensures After(f, s, a + b) == After(f, After(f, s, a), b)
  {
    if b == [] {
      assert a + b == a;
    } else {
      AfterConcat(f, s, a, b[..|b| - 1]);
      assert (a + b)[..|a + b| - 1] == a + b[..|b| - 1];
    }
  }

  lemma AfterSnoc<S, A>(f: (S, A) -> S, s: S, steps: seq<A>, a: A)
    ensures After(f, s, steps + [a]) == f(After(f, s, steps), a)
  {
    assert (steps + [a])[..|steps|] == steps;
  }

  lemma AfterOne<S, A>(f: (S, A) -> S, s: S, a: A)
    ensures After(f, s, [a]) == f(s, a)
  {
    assert [a][..0] == [];
  }

  lemma AfterFour<S, A>(f: (S, A) -> S, s: S, p: A, q: A, x: A, y: A)
    ensures After(f, s, [p, q, x, y]) == f(f(f(f(s, p), q), x), y)
  {
    AfterSnoc(f, s, [], p);
    AfterSnoc(f, s, [p], q);
    AfterSnoc(f, s, [p, q], x);
    AfterSnoc(f, s, [p, q, x], y);
    assert [] + [p] == [p] && [p] + [q] == [p, q] && [p, q] + [x] == [p, q, x] && [p, q, x] + [y] == [p, q, x, y];
  }

  /** What holds of every step, of no step and across steps holds of a run and how it goes on. */
  lemma {:induction false} AfterRelates<S(!new), A(!new)>(f: (S, A) -> S, r: (S, S) -> bool, s: S, a: seq<A>, b: seq<A>)
    requires forall x :: r(x, x)
    requires forall x, step :: r(x, f(x, step))
    requires forall x, y, z :: r(x, y) && r(y, z) ==> r(x, z)
    ensures r(After(f, s, a), After(f, s, a + b))
    decreases |b|
  {
    if b == [] {
      assert a + b == a;
    } else {
      var init := b[..|b| - 1];
      AfterRelates(f, r, s, a, init);
      assert (a + b)[..|a + b| - 1] == a + init;
      assert r(After(f, s, a + init), f(After(f, s, a + init), b[|b| - 1]));
    }
  }

  /** Some step passes the test. */
  ghost predicate Includes<A>(steps: seq<A>, test: A -> bool) {
    exists k :: 0 <= k < |steps| && test(steps[k])
  }

  lemma IncludesSnoc<A>(steps: seq<A>, a: A, test: A -> bool)
    ensures Includes(steps + [a], test) <==> Includes(steps, test) || test(a)
  {
    var all := steps + [a];
    if k :| 0 <= k < |steps| && test(steps[k]) {
      assert test(all[k]);
    }
    if test(a) {
      assert test(all[|steps|]);
    }
  }

  /** What some steps bring about, and none takes back, holds after a run that includes such a step. */
  lemma {:induction false} HoldsAfter<S(!new), A(!new)>(f: (S, A) -> S, s: S, steps: seq<A>, has: S -> bool,
      brings: A -> bool)
    requires forall x, a :: has(f(x, a)) <==> has(x) || brings(a)
    ensures has(After(f, s, steps)) <==> has(s) || Includes(steps, brings)
  {
    if steps != [] {
      var init, last := steps[..|steps| - 1], steps[|steps| - 1];
      HoldsAfter(f, s, init, has, brings);
      IncludesSnoc(init, last, brings);
      assert init + [last] == steps;
    }
  }
}
