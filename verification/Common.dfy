/** Types shared by every module of the model. */
module Common {

  /** Python's `None` or a value. */
  datatype Option<+T> = None | Some(value: T)

  /** How one command sent to Redis ends.  `Done`: it ran and the reply came back.
      `Lost`: it never ran and the client raised.  `Applied`: it ran on the server, but the
      reply was lost, so the client raised just the same. */
  datatype Reply = Done | Lost | Applied {
    predicate Raised() { !Done? }
    predicate TookEffect() { !Lost? }
  }

  function Max(a: int, b: int): int { if a < b then b else a }
  function Min(a: int, b: int): int { if a < b then a else b }
}
