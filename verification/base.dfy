/** Failure-carrying values and small sequence helpers shared by every
    module of the model. */
module Base {

  /** A value that may be absent: Python's None, JavaScript's null/undefined. */
  datatype Option<+T> = None | Some(value: T) {
    function GetOr(default: T): T {
      match this
      case Some(v) => v
      case None => default
    }
  }

  /** The outcome of an operation that can throw: Ok carries the value,
      Err carries what the source raises. */
  datatype Result<+T, +E> = Ok(value: T) | Err(error: E)

  function Min(a: int, b: int): int { if a <= b then a else b }

  function Max(a: int, b: int): int { if a >= b then a else b }

  /** The last element of a non-empty sequence (Python's `xs[-1]`). */
  function Last<T>(xs: seq<T>): T
    requires |xs| > 0
  {
    xs[|xs| - 1]
  }

  /** `xs` is `ys` with some elements left out, order kept. */
  predicate Sublist<T(==)>(xs: seq<T>, ys: seq<T>)
    decreases |ys|
  {
    if xs == [] then true
    else if ys == [] then false
    else if xs[0] == ys[0] then Sublist(xs[1..], ys[1..])
    else Sublist(xs, ys[1..])
  }

  /** Leaving out one more element at the front keeps a sublist a
      sublist; so does dropping the sublist's own first element. */
  lemma {:induction false} SublistWeaken<T>(xs: seq<T>, y: T, zs: seq<T>)
    requires Sublist(xs, zs)
    ensures Sublist(xs, [y] + zs)
    ensures xs != [] ==> Sublist(xs[1..], zs)
    decreases |zs|
  {
    if xs != [] {
      assert zs != [];
      if xs[0] == zs[0] {
        SublistWeaken(xs[1..], zs[0], zs[1..]);
        assert [zs[0]] + zs[1..] == zs;
      } else {
        SublistWeaken(xs, zs[0], zs[1..]);
        SublistWeaken(xs[1..], zs[0], zs[1..]);
        assert [zs[0]] + zs[1..] == zs;
      }
      assert ([y] + zs)[1..] == zs;
    }
  }
}
