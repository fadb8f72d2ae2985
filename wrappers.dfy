/** Option and Result, the shapes the macros' Rust code returns or panics through. */
module Wrappers {

  datatype Option<+T> = None | Some(value: T) {
    /** Rust's `Option::unwrap_or`. */
    function UnwrapOr(default: T): T {
      if Some? then value else default
    }
  }

  /** `Err` stands for an error value the Rust code returns, or for a panic the
      macro raises while expanding (which rustc reports as a compile error). */
  datatype Result<+T, +E> = Ok(value: T) | Err(error: E)

  /** Drains a sequence of results in order, as `collect::<Result<Vec<_>, _>>()` or
      a `quote!` repetition over panicking closures does: all the values, or the
      first error. */
  function FirstError<T, E>(rs: seq<Result<T, E>>): (r: Result<seq<T>, E>)
    ensures r.Ok? <==> forall k :: 0 <= k < |rs| ==> rs[k].Ok?
    ensures r.Ok? ==> |r.value| == |rs| && forall k :: 0 <= k < |rs| ==> Ok(r.value[k]) == rs[k]
    ensures r.Err? ==>
      exists k ::
        && 0 <= k < |rs|
        && rs[k] == Err(r.error)
        && forall j :: 0 <= j < k ==> rs[j].Ok?
  {
    if rs == [] then Ok([])
    else match rs[0]
      case Err(e) => Err(e)
      case Ok(m) =>
        match FirstError(rs[1..])
        case Err(e) =>
          ghost var k :| 0 <= k < |rs[1..]| && rs[1..][k] == Err(e) && forall j :: 0 <= j < k ==> rs[1..][j].Ok?;
          assert rs[k + 1] == Err(e);
          Err(e)
        case Ok(ms) => Ok([m] + ms)
  }
}
