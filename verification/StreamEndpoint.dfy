/** The AVDTP stream endpoint: which operation each state admits, and where it leads. An operation
    checks the state, calls the handler and stores the new state, all under the endpoint's lock;
    the handler takes a lock of its own, so other threads run between these three steps. */
module StreamEndpoint {

  datatype EndpointState = IDLE | CONFIGURED | OPENED | STARTED | CLOSING | ABORTING

  /** What a sink or a source reports about itself. */
  datatype AudioState = DISCONNECTED | CONNECTING | CONNECTED_BAD | CONNECTED | READY | STREAMING

  datatype Operation = SET_CONFIGURATION | OPEN | START | SUSPEND | CLOSE | ABORT

  datatype Error = NONE | ILLEGAL_STATE | BAD_REQUEST | UNAVAILABLE | OPENING_FAILED | NOT_SUPPORTED | OTHER

  /** The lock is free; or a call that found the endpoint in state `from` waits for its handler,
      which may release a lock of its own halfway, or has come back from it. */
  datatype Call = Free | Entered(op: Operation, from: EndpointState)
                | Halfway(op: Operation, from: EndpointState)
                | Returned(op: Operation, from: EndpointState, ok: bool)

  predicate IsStable(s: EndpointState) {
    s != CLOSING && s != ABORTING
  }

  /** The check at the head of each On-handler. */
  predicate Admits(op: Operation, s: EndpointState) {
    match op
    case SET_CONFIGURATION => s == IDLE
    case OPEN => s == CONFIGURED
    case START => s == OPENED
    case SUSPEND => s == STARTED
    case CLOSE => s == OPENED || s == STARTED
    case ABORT => s != IDLE
  }

  /** The state while the handler runs. */
  function During(op: Operation, s: EndpointState): EndpointState {
    match op
    case CLOSE => CLOSING
    case ABORT => ABORTING
    case _ => s
  }

  /** The state once the handler has answered. Closing and aborting end in IDLE whatever the
      handler says. */
  function Finally(op: Operation, from: EndpointState, ok: bool): EndpointState {
    match op
    case CLOSE => IDLE
    case ABORT => IDLE
    case SET_CONFIGURATION => if ok then CONFIGURED else from
    case OPEN => if ok then OPENED else from
    case START => if ok then STARTED else from
    case SUSPEND => if ok then OPENED else from
  }

  /** The state the endpoint counts as: the one it had while the handler has not run, the one it
      will have once it has. */
  function Effective(s: EndpointState, call: Call): EndpointState {
    match call
    case Free => s
    case Entered(_, from) => from
    case Halfway(_, from) => from
    case Returned(op, from, ok) => Finally(op, from, ok)
  }

  /** A call in progress fits the state. */
  predicate Consistent(s: EndpointState, call: Call) {
    match call
    case Free => IsStable(s)
    case Entered(op, from) => IsStable(from) && Admits(op, from) && s == During(op, from)
    case Halfway(op, from) => IsStable(from) && Admits(op, from) && s == During(op, from)
    case Returned(op, from, _) => IsStable(from) && Admits(op, from) && s == During(op, from)
  }

  predicate IsOpen(s: EndpointState) {
    s == OPENED || s == STARTED
  }
}
