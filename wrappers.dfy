/** An optional value. Throughout the model, `None` stands for the point at which the
    Rust code panics (an `unwrap` on nothing, an explicit `panic!`, an index out of
    bounds) or, for a fuel-bounded loop, for a loop that has not finished. */
module Wrappers {

  datatype Option<+T> = None | Some(value: T) {

    /** Returns the value in `Some`, or the default when `None` */
    function GetOr(default: T): (r: T)
      ensures Some? ==> r == value
      ensures None? ==> r == default
    {
      match this
      case Some(v) => v
      case None => default
    }
  }

  /** `collect::<Option<Vec<_>>>()` over a map, or a chain of `unwrap`s: every
      element converted, or `None` as soon as one conversion fails */
  function Traverse<A, B>(xs: seq<A>, f: A -> Option<B>): (r: Option<seq<B>>)
    ensures r.Some? ==> |r.value| == |xs|
  {
    if |xs| == 0 then Some([])
    else
      match (f(xs[0]), Traverse(xs[1..], f))
      case (Some(y), Some(ys)) => Some([y] + ys)
      case _ => None
  }

  /** `Traverse` succeeds exactly when every conversion does, and keeps the order */
  lemma {:induction false} TraverseAt<A, B>(xs: seq<A>, f: A -> Option<B>)
    ensures var r := Traverse(xs, f);
      (r.Some? <==> forall k :: 0 <= k < |xs| ==> f(xs[k]).Some?) &&
      (r.Some? ==> forall k :: 0 <= k < |xs| ==> f(xs[k]) == Some(r.value[k]))
  {
    if |xs| > 0 {
      TraverseAt(xs[1..], f);
      assert forall k :: 1 <= k < |xs| ==> xs[k] == xs[1..][k - 1];
    }
  }
}
