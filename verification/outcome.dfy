/** Option and Result values for the model. A Python exception raised by the
    collection pass becomes a `Failure` carrying a `Fault` that names it. */
module Outcome {

  datatype Option<+T> = None | Some(value: T) {
    function GetOr(default: T): T {
      match this
      case Some(v) => v
      case None => default
    }
  }

  /** The exceptions the modelled code can raise. */
  datatype Fault =
    | NoWords(text: string)          // IndexError: `title[0]` on a name with no words
    | MissingKey(key: string)        // KeyError on a dict or MultiDict lookup
    | NotAnInteger(text: string)     // ValueError from `int(...)`
    | NotADecimal(text: string)      // decimal.InvalidOperation from `Decimal(...)`
    | NoWeightLabel(rounded: int)    // KeyError on the weight table
    | CannotRound(nan: bool)         // `round` on a Decimal NaN (ValueError) or infinity (OverflowError)
    | MissingAttribute(name: string) // AttributeError on a BoardGame

  datatype Result<+T> = Success(value: T) | Failure(error: Fault) {
    predicate IsFailure() {
      Failure?
    }

    function PropagateFailure<U>(): Result<U>
      requires Failure?
    {
      Failure(error)
    }

    function Extract(): T
      requires Success?
    {
      value
    }
  }

  /** A list comprehension whose element expression can raise: the values of
      every element when none fails, otherwise the first failure. */
  function Collect<T>(rs: seq<Result<T>>): (r: Result<seq<T>>)
    ensures r.Success? <==> forall i | 0 <= i < |rs| :: rs[i].Success?
    ensures r.Success? ==> |r.value| == |rs| && forall i | 0 <= i < |rs| :: rs[i] == Success(r.value[i])
    ensures r.Failure? ==> exists i | 0 <= i < |rs| :: FirstFailure(rs, i) && r.error == rs[i].error
    decreases |rs|
  {
    if rs == [] then Success([])
    else
      var rest := Collect(rs[1..]);
      assert forall i | 1 <= i < |rs| :: rs[i] == rs[1..][i - 1];
      match rs[0]
      case Failure(e) =>
        assert FirstFailure(rs, 0);
        Failure(e)
      case Success(v) =>
        match rest
        case Failure(e) =>
          assert exists i | 0 <= i < |rs| :: FirstFailure(rs, i) && e == rs[i].error by {
            var i :| 0 <= i < |rs[1..]| && FirstFailure(rs[1..], i) && e == rs[1..][i].error;
            assert FirstFailure(rs, i + 1);
          }
          Failure(e)
        case Success(vs) => Success([v] + vs)
  }

  /** `rs[i]` is the first failure of `rs`. */
  predicate FirstFailure<T>(rs: seq<Result<T>>, i: int) {
    0 <= i < |rs| && rs[i].Failure? && forall k | 0 <= k < i :: rs[k].Success?
  }
}
