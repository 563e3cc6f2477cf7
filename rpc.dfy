/** Values that cross the boundary between the coordinator, the invocation log and the
    participant services: TCC phases, opaque (serialised) values, the description of one
    service call as the callee sees it, and the error kinds the coordinator raises. */
module Rpc {

  datatype Option<+T> = None | Some(value: T) {
    function GetOr(default: T): T {
      match this
      case Some(v) => v
      case None => default
    }
  }

  /** The three TCC phases; the phase name is also the suffix of the service method that
      implements it (`func + "Try"`, `func + "Confirm"`, `func + "Cancel"`). */
  datatype Phase = Try | Confirm | Cancel

  /** A service argument or result. Serialisation is modelled as the identity, so
      `unserialize(serialize(x)) == x` holds by construction; `Null` is PHP's null. */
  datatype Value = Null | Data(text: string)

  /** One call of a participant service, with the ambient context that travels with it:
      the phase, the transaction id, the request id and the local-request flag. */
  datatype Call = Call(phase: Option<Phase>, txId: string, req: string, local: bool,
                       cls: string, func: string, params: seq<Value>)

  /** What a participant service does with a call: it returns a value or it throws. */
  datatype Outcome = Returned(result: Value) | Threw

  /** The service behaviour the model is run against. */
  type Services = Call -> Outcome

  datatype Error =
    | MethodDispatch    // no phase in the context, or no phase-suffixed method
    | TransactionState  // begin while started, getService while not started
    | DuplicateKey      // an insert hit an existing invocation-log key
    | Thrown            // the service's own exception, rethrown

  datatype Result<+T> = Ok(value: T) | Err(error: Error)
}
