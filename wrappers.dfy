/** Kotlin's nullable values and thrown exceptions, written as datatypes. */
module Wrappers {

  /** A nullable value: `None` stands for Kotlin's `null`. */
  datatype Option<+T> = None | Some(value: T) {
    function GetOr(default: T): T {
      match this
      case Some(v) => v
      case None => default
    }
  }

  /** The outcome of a call that may throw: `Fail` carries the exception. */
  datatype Result<+R, +E> = Ok(value: R) | Fail(error: E)

  /**
   * `f` applied to every element, or `None` as soon as one application
   * gives `None` (a `map` whose lambda throws on a bad element).
   */
  function AllSome<A, B>(xs: seq<A>, f: A -> Option<B>): (r: Option<seq<B>>)
    ensures r.Some? <==> forall k :: 0 <= k < |xs| ==> f(xs[k]).Some?
    ensures r.Some? ==> |r.value| == |xs| && forall k :: 0 <= k < |xs| ==> Some(r.value[k]) == f(xs[k])
  {
    if xs == [] then Some([])
    else
      var tail := AllSome(xs[1..], f);
      assert forall k :: 1 <= k < |xs| ==> xs[k] == xs[1..][k - 1];
      match f(xs[0])
      case None => None
      case Some(y) => if tail.None? then None else Some([y] + tail.value)
  }

  /** The loop that appends `f(x)` for each `x` in turn and stops at the first `None`. */
  method CollectAll<A, B>(xs: seq<A>, f: A -> Option<B>) returns (r: Option<seq<B>>)
    ensures r == AllSome(xs, f)
  {
    var ys: seq<B> := [];
    var i := 0;
    while i < |xs|
      invariant 0 <= i <= |xs| && |ys| == i
      invariant forall k :: 0 <= k < i ==> Some(ys[k]) == f(xs[k])
    {
      var y := f(xs[i]);
      if y.None? {
        assert AllSome(xs, f).None?;
        return None;
      }
      ys := ys + [y.value];
      i := i + 1;
    }
    assert AllSome(xs, f).Some?;
    assert AllSome(xs, f).value == ys;
    r := Some(ys);
  }
}
