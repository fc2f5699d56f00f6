/** The Option type used where the source returns a null pointer or a failure flag. */
module Wrappers {
  datatype Option<+T> = None | Some(value: T)

  /** `f` applied to the first `n` elements in turn; none if it refuses one of them. */
  function MapUpTo<S, T>(xs: seq<S>, f: S -> Option<T>, n: nat): Option<seq<T>>
    requires n <= |xs|
  {
    if n == 0 then Some([])
    else
      var before, last := MapUpTo(xs, f, n - 1), f(xs[n - 1]);
      if before.None? || last.None? then None else Some(before.value + [last.value])
  }

  function MapAll<S, T>(xs: seq<S>, f: S -> Option<T>): Option<seq<T>> {
    MapUpTo(xs, f, |xs|)
  }

  lemma {:induction false} RefusalStays<S, T>(xs: seq<S>, f: S -> Option<T>, m: nat, n: nat)
    requires m <= n <= |xs| && MapUpTo(xs, f, m).None?
    ensures MapUpTo(xs, f, n).None?
  {
    if m < n {
      RefusalStays(xs, f, m, n - 1);
    }
  }

  /** One more element: appended, or the whole sequence is refused. */
  lemma MapStep<S, T>(xs: seq<S>, f: S -> Option<T>, n: nat, done: seq<T>, next: Option<T>)
    requires n < |xs| && MapUpTo(xs, f, n) == Some(done) && next == f(xs[n])
    ensures next.Some? ==> MapUpTo(xs, f, n + 1) == Some(done + [next.value])
    ensures next.None? ==> MapAll(xs, f).None?
  {
    if next.None? {
      RefusalStays(xs, f, n + 1, |xs|);
    }
  }

  /** All elements are mapped exactly when none is refused, and then elementwise. */
  lemma {:induction false} MapUpToIs<S, T>(xs: seq<S>, f: S -> Option<T>, n: nat)
    requires n <= |xs|
    ensures MapUpTo(xs, f, n).Some? <==> forall i :: 0 <= i < n ==> f(xs[i]).Some?
    ensures MapUpTo(xs, f, n).Some? ==>
              |MapUpTo(xs, f, n).value| == n && forall i :: 0 <= i < n ==> f(xs[i]) == Some(MapUpTo(xs, f, n).value[i])
  {
    if n > 0 {
      MapUpToIs(xs, f, n - 1);
    }
  }

  lemma Assoc<T>(a: seq<T>, b: seq<T>, c: seq<T>)
    ensures a + b + c == a + (b + c)
  {
  }
}
