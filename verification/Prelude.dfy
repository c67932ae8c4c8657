/** Small datatypes and sequence facts shared by every module of the project. */
module Prelude {

  datatype Option<+T> = None | Some(value: T)

  /** A value or the exception the original throws instead of returning one. */
  datatype Result<+T, +E> = Success(value: T) | Failure(error: E) {
    predicate IsFailure() {
      Failure?
    }

    function PropagateFailure<U>(): Result<U, E>
      requires Failure?
    {
      Failure(error)
    }

    function Extract(): T
      requires Success?
    {
      value
    }
  }

  function Max(a: int, b: int): int {
    if a > b then a else b
  }

  function Min(a: int, b: int): int {
    if a < b then a else b
  }

  /** The concatenation of a sequence of sequences. */
  function Flatten<T>(xs: seq<seq<T>>): seq<T> {
    if xs == [] then [] else xs[0] + Flatten(xs[1..])
  }

  lemma {:induction false} FlattenAppend<T>(xs: seq<seq<T>>, ys: seq<seq<T>>)
    ensures Flatten(xs + ys) == Flatten(xs) + Flatten(ys)
  {
    if xs == [] {
      assert xs + ys == ys;
    } else {
      assert (xs + ys)[1..] == xs[1..] + ys;
      FlattenAppend(xs[1..], ys);
    }
  }

  lemma FlattenSplice<T>(xs: seq<seq<T>>, x: seq<T>, ys: seq<seq<T>>)
    ensures Flatten(xs + [x] + ys) == Flatten(xs) + x + Flatten(ys)
  {
    FlattenAppend(xs + [x], ys);
    FlattenAppend(xs, [x]);
    assert Flatten([x]) == x;
  }

  lemma FlattenPair<T>(x: seq<T>, y: seq<T>)
    ensures Flatten([x, y]) == x + y
  {
    assert [x, y] == [] + [x] + [y];
    FlattenSplice([], x, [y]);
    FlattenSplice([], y, []);
    assert [] + [y] + [] == [y];
  }
}
