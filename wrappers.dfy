/** Option, the driver's error taxonomy, and the Result/Outcome carriers
    that stand for a returned value or a thrown exception. */
module Wrappers {

  datatype Option<+T> = None | Some(value: T)

  /** The exceptions the modelled code throws, by .NET type. */
  datatype Error =
    | ArgumentNull        // ArgumentNullException
    | NotConnected        // NotConnectedException
    | AlreadyConnected    // AlreadyConnectedException
    | InvalidCommand      // InvalidCommandException
    | Timeout             // NvdaTestingDriver.Exceptions.TimeoutException
    | ObjectDisposed      // ObjectDisposedException
    | NullReference       // NullReferenceException from an unguarded dereference
    | Socket              // SocketException surfaced by the connect retry loop
    | JsonReader          // JsonReaderException from JObject.Parse
    | InvalidCast         // InvalidCastException from a JToken conversion

  /** A value, or the exception thrown instead of returning it. */
  datatype Result<+T> = Ok(value: T) | Err(error: Error) {
    predicate IsFailure() { Err? }
    function PropagateFailure<U>(): Result<U>
      requires Err?
    {
      Err(error)
    }
    function Extract(): T
      requires Ok?
    {
      value
    }
  }

  /** Completion of an operation that returns nothing: normal or by an exception. */
  datatype Outcome = Pass | Fail(error: Error)
}
