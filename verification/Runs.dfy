/** Runs of a state machine: any sequence of actions, applied one after the other. */
module Runs {

  function After<S, A>(next: (S, A) -> S, start: S, actions: seq<A>): S {
    if actions == [] then start
    else next(After(next, start, actions[..|actions| - 1]), actions[|actions| - 1])
  }

  /** A run can be cut anywhere: its second part starts where its first part ends. */
  lemma {:induction false} AfterConcat<S, A>(next: (S, A) -> S, start: S, first: seq<A>, second: seq<A>)
    ensures After(next, start, first + second) == After(next, After(next, start, first), second)
    decreases |second|
  {
    if second == [] {
      assert first + second == first;
    } else {
      AfterConcat(next, start, first, second[..|second| - 1]);
      assert (first + second)[..|first + second| - 1] == first + second[..|second| - 1];
    }
  }

  lemma AfterOne<S, A>(next: (S, A) -> S, s: S, a: A)
    ensures After(next, s, [a]) == next(s, a)
  {
  }

  lemma AfterTwo<S, A>(next: (S, A) -> S, s: S, a: A, b: A)
    ensures After(next, s, [a, b]) == next(next(s, a), b)
  {
    assert [a, b][..1] == [a];
    AfterOne(next, s, a);
  }

  lemma AfterThree<S, A>(next: (S, A) -> S, s: S, a: A, b: A, c: A)
    ensures After(next, s, [a, b, c]) == next(next(next(s, a), b), c)
  {
    assert [a, b, c][..2] == [a, b];
    AfterTwo(next, s, a, b);
  }

  lemma AfterFour<S, A>(next: (S, A) -> S, s: S, a: A, b: A, c: A, d: A)
    ensures After(next, s, [a, b, c, d]) == next(next(next(next(s, a), b), c), d)
  {
    assert [a, b, c, d][..3] == [a, b, c];
    AfterThree(next, s, a, b, c);
  }
}
