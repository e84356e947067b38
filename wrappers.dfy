/** Option and Result, the error-carrying values used in place of C++ exceptions
    and std::optional. */
module Wrappers {

  datatype Option<+T> = None | Some(value: T)

  datatype Result<+T, +E> = Ok(value: T) | Err(error: E) {
    predicate IsFailure() { Err? }

    function PropagateFailure<U>(): Result<U, E>
      requires Err?
    {
      Err(error)
    }

    function Extract(): T
      requires Ok?
    {
      value
    }
  }

  /** The values of a list of results, in order, or the first error among them:
      what a loop that stops at the first exception collects. */
  function Collect<T, E>(rs: seq<Result<T, E>>): (r: Result<seq<T>, E>)
    ensures r.Ok? ==> |r.value| == |rs|
    decreases |rs|
  {
    if rs == [] then Ok([])
    else
      var init :- Collect(rs[..|rs| - 1]);
      var x :- rs[|rs| - 1];
      Ok(init + [x])
  }

  /** Collecting succeeds exactly when every result is a value, and then keeps
      them in order; otherwise the error is that of the first failing result. */
  lemma {:induction false} CollectOk<T, E>(rs: seq<Result<T, E>>)
    ensures Collect(rs).Ok? <==> forall i :: 0 <= i < |rs| ==> rs[i].Ok?
    ensures Collect(rs).Ok? ==> forall i :: 0 <= i < |rs| ==> rs[i] == Ok(Collect(rs).value[i])
    ensures Collect(rs).Err? ==>
      exists i :: 0 <= i < |rs| && rs[i] == Err(Collect(rs).error) && forall j :: 0 <= j < i ==> rs[j].Ok?
    decreases |rs|
  {
    if rs != [] {
      var init := rs[..|rs| - 1];
      CollectOk(init);
      assert forall i :: 0 <= i < |init| ==> init[i] == rs[i];
      if Collect(init).Ok? && rs[|rs| - 1].Ok? {
        var r := Collect(rs).value;
        assert r == Collect(init).value + [rs[|rs| - 1].value];
        forall i | 0 <= i < |rs|
          ensures rs[i] == Ok(r[i])
        {
          if i < |rs| - 1 {
            assert r[i] == Collect(init).value[i];
          }
        }
      }
    }
  }

  /** One more result: a value extends the collection, an error ends it. */
  lemma CollectSnoc<T, E>(rs: seq<Result<T, E>>, i: nat, outs: seq<T>)
    requires i < |rs| && Collect(rs[..i]) == Ok(outs)
    ensures rs[i].Ok? ==> Collect(rs[..i + 1]) == Ok(outs + [rs[i].value])
    ensures rs[i].Err? ==> Collect(rs) == Err(rs[i].error)
  {
    assert rs[..i + 1][..i] == rs[..i];
    if rs[i].Err? {
      CollectErr(rs, i + 1);
    }
  }

  /** Once a prefix has failed, the whole collection fails with the same error. */
  lemma {:induction false} CollectErr<T, E>(rs: seq<Result<T, E>>, n: nat)
    requires n <= |rs| && Collect(rs[..n]).Err?
    ensures Collect(rs) == Collect(rs[..n])
    decreases |rs| - n
  {
    if n < |rs| {
      assert rs[..n + 1][..n] == rs[..n];
      CollectErr(rs, n + 1);
    } else {
      assert rs[..n] == rs;
    }
  }
}
