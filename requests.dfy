/** Request-body checks shared by the handlers in app/routes.py: required
    keys (validate_params_or_abort) and reading an id with int(). */
module Requests {
  import opened Json

  const CustomerParams: seq<string> := ["name", "postal_code", "phone"]
  const VideoParams: seq<string> := ["title", "release_date", "total_inventory"]
  const RentalParams: seq<string> := ["customer_id", "video_id"]

  /** The first of params, in order, that is not a key of body; None when
      every one of them is present. */
  function FirstMissing(body: Object, params: seq<string>): (r: Option<string>)
    ensures r.None? <==> forall i :: 0 <= i < |params| ==> params[i] in body
    ensures r.Some? ==> exists i :: 0 <= i < |params| && params[i] == r.value
                          && r.value !in body
                          && forall j :: 0 <= j < i ==> params[j] in body
  {
    if params == [] then None
    else if params[0] !in body then Some(params[0])
    else
      var r := FirstMissing(body, params[1..]);
      assert r.Some? ==> exists i :: 0 <= i < |params[1..]| && params[1..][i] == r.value
                           && r.value !in body
                           && forall j :: 0 <= j < i ==> params[1..][j] in body;
      r
  }

  /** validate_params_or_abort: walks params in order and stops at the first
      key missing from body, which the abort names. */
  method ValidateParams(body: Object, params: seq<string>) returns (missing: Option<string>)
    ensures missing == FirstMissing(body, params)
  {
    var i := 0;
    while i < |params|
      invariant 0 <= i <= |params|
      invariant FirstMissing(body, params[i..]) == FirstMissing(body, params)
    {
      if params[i] !in body {
        return Some(params[i]);
      }
      assert params[i..][1..] == params[i + 1..];
      i := i + 1;
    }
    assert params[i..] == [];
    return None;
  }

  /** int(v) on a body value or a path segment: a number is taken as it is,
      a string must be decimal digits; None where int() raises ValueError. */
  function ParseId(v: Value): (r: Option<int>)
    ensures v.Int? ==> r == Some(v.i)
    ensures v.Str? ==> (r.Some? <==> ParseDecimal(v.s).Some?)
    ensures v.Str? && r.Some? ==> r.value == ParseDecimal(v.s).value
  {
    match v
    case Int(i) => Some(i)
    case Str(s) =>
      match ParseDecimal(s)
      case None => None
      case Some(n) => Some(n)
  }

  /** The id written by str() in a URL or a body is read back by int(). */
  lemma {:induction false} IdTextRoundTrip(n: nat)
    ensures ParseId(Str(Decimal(n))) == Some(n)
  {
    DecimalRoundTrip(n);
  }
}
