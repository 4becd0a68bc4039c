/** The result type shared by the signal pipeline. */
module Wrappers {

  /** Either a computed value or the reason the computation stops. */
  datatype Result<+T, +E> = Ok(value: T) | Err(error: E)

  /**
   * Run a sequence of steps in order: all their values when every step
   * succeeds, otherwise the failure of the first step that fails.
   */
  function Collect<T, E>(rs: seq<Result<T, E>>): (r: Result<seq<T>, E>)
    ensures r.Ok? <==> forall i :: 0 <= i < |rs| ==> rs[i].Ok?
    ensures r.Ok? ==> |r.value| == |rs| && forall i :: 0 <= i < |rs| ==> r.value[i] == rs[i].value
    ensures r.Err? ==> exists i :: 0 <= i < |rs| && rs[i].Err? && rs[i].error == r.error && forall j :: 0 <= j < i ==> rs[j].Ok?
  {
    if |rs| == 0 then Ok([])
    else if rs[0].Err? then Err(rs[0].error)
    else
      var rest := Collect(rs[1..]);
      assert forall i :: 1 <= i < |rs| ==> rs[1..][i - 1] == rs[i];
      if rest.Err? then
        assert exists i :: 0 <= i < |rs| && rs[i].Err? && rs[i].error == rest.error && forall j :: 0 <= j < i ==> rs[j].Ok? by {
          var i :| 0 <= i < |rs| - 1 && rs[1..][i].Err? && rs[1..][i].error == rest.error && forall j :: 0 <= j < i ==> rs[1..][j].Ok?;
          assert rs[i + 1] == rs[1..][i];
          forall j | 1 <= j < i + 1 ensures rs[j].Ok? {
            assert rs[j] == rs[1..][j - 1];
          }
        }
        Err(rest.error)
      else
        Ok([rs[0].value] + rest.value)
  }
}
