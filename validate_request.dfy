/** `validateRequest` (backend/src/middleware/validateRequest.ts): the
    middleware between the validator chains and the controller. */
module ValidateRequest {
  import opened Wrappers
  import opened Types
  import opened Http

  /** An error as the validator chains record it; errors that belong to no
      single field have no path. */
  datatype FieldError = FieldError(path: Option<string>, msg: string)

  /** One entry of the error list: the path, or 'unknown'. */
  function Entry(e: FieldError): (v: ValidationError)
    ensures v.field == OrElse(e.path, "unknown") && v.message == e.msg
  {
    ValidationError(OrElse(e.path, "unknown"), e.msg)
  }

  function Entries(errors: seq<FieldError>): (r: seq<ValidationError>)
    ensures |r| == |errors|
    ensures forall k | 0 <= k < |errors| :: r[k] == Entry(errors[k])
  {
    seq(|errors|, k requires 0 <= k < |errors| => Entry(errors[k]))
  }

  /** No errors: `next()` and nothing is written. Otherwise a 400
      'Validation failed' listing one entry per error, in order, and the
      controller is not reached. */
  function ValidateRequest(errors: seq<FieldError>): (o: Outcome)
    ensures o.Continue? <==> errors == []
    ensures !o.Forward?
    ensures errors != [] ==> && o.Respond?
                             && o.response.status == 400 && !o.response.success
                             && o.response.message == Some("Validation failed")
                             && o.response.data == NoData
                             && o.response.errors == Some(Entries(errors))
  {
    if errors == [] then Continue
    else Respond(Response(400, false, Some("Validation failed"), NoData, Some(Entries(errors))))
  }
}
