/** Error codes reported by the remote DSP library and the messages the
    window shows for them (FLWindow::getErrorFromCode). The numeric values
    of the codes belong to the remote library; only their identity matters
    here, so every other integer is carried by `Unknown`. */
module RemoteErrors {

  datatype ErrorCode =
    | FactoryNotFound      // the remote node evicted its compiled factory
    | InstanceNotCreated
    | NetJackNotStarted
    | CurlConnection
    | WriteError           // transport faults delivered to the error callback
    | ReadError
    | Unknown(code: int)

  const NotRecognized: string := "ERROR not recognized"

  /** The four codes the instance-creation call can answer with. */
  predicate IsCreationCode(c: ErrorCode) {
    c.FactoryNotFound? || c.InstanceNotCreated? || c.NetJackNotStarted? || c.CurlConnection?
  }

  /** The two transport faults that may trigger a fallback to local processing. */
  predicate IsTransportFault(c: ErrorCode) {
    c.WriteError? || c.ReadError?
  }

  /** A total map from code to user-visible message. */
  function ErrorFromCode(c: ErrorCode): (msg: string)
    ensures |msg| > 0
    ensures msg == NotRecognized <==> !IsCreationCode(c)
  {
    match c
    case FactoryNotFound => "Impossible to create remote factory"
    case InstanceNotCreated => "Impossible to create DSP Instance"
    case NetJackNotStarted => "NetJack Master not started"
    case CurlConnection => "Curl connection failed"
    case _ => NotRecognized
  }

  /** Distinct creation codes are reported with distinct messages, so the
      message identifies the code that caused it. */
  lemma ErrorFromCodeInjective(a: ErrorCode, b: ErrorCode)
    requires IsCreationCode(a) && IsCreationCode(b)
    requires ErrorFromCode(a) == ErrorFromCode(b)
    ensures a == b
  {
  }
}
