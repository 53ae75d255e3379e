/** The parser's loops all walk a list once, front to back, threading some
    state through. `Scan` is that walk as a function: the state after the
    whole list is the step applied to the state after all but the last item. */
module Scans {

  function Scan<S, T>(step: (S, T) -> S, init: S, xs: seq<T>): S
    decreases |xs|
  {
    if xs == [] then init else step(Scan(step, init, xs[..|xs| - 1]), xs[|xs| - 1])
  }

  /** Walking `xs + ys` is walking `ys` from where walking `xs` left off. */
  lemma {:induction false} ScanAppend<S, T>(step: (S, T) -> S, init: S, xs: seq<T>, ys: seq<T>)
    ensures Scan(step, init, xs + ys) == Scan(step, Scan(step, init, xs), ys)
    decreases |ys|
  {
    if ys == [] {
      assert xs + ys == xs;
    } else {
      var ys' := ys[..|ys| - 1];
      assert (xs + ys)[..|xs + ys| - 1] == xs + ys';
      ScanAppend(step, init, xs, ys');
    }
  }

  /** One more item is one more step. */
  lemma ScanSnoc<S, T>(step: (S, T) -> S, init: S, xs: seq<T>, x: T)
    ensures Scan(step, init, xs + [x]) == step(Scan(step, init, xs), x)
  {
    assert (xs + [x])[..|xs|] == xs;
  }
}
