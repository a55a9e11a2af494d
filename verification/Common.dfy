/** Results and exceptions shared by the engine's modules. */
module Common {

  datatype Option<+T> = None | Some(value: T)

  /** What crosses a call boundary: a value, or a C++ exception in flight. */
  datatype Outcome<+T> = Ok(value: T) | Throw(exn: Exn)

  /** The exceptions the step machine tells apart.  InvalidArgs and InvalidOp come from the
      formula solver, InvalidVarName and InvalidType from the typed accessors that user
      functions call, OutOfRange from map::at, BadCast from a dynamic_cast to a reference, User
      from Subprogram::user_exception.  Foreign is any other C++ exception; NullRef stands for the
      null dereference behind operator[] on a missing key, which no handler can see. */
  datatype Exn =
    | InvalidArgs(op: string, position: nat, presented: nat, expected: nat)
    | InvalidOp(op: string)
    | InvalidVarName(name: string)
    | OutOfRange
    | InvalidType(name: string)
    | BadCast
    | User(what: string)
    | Foreign
    | NullRef
  {
    /** The seven catch clauses of Block::call. */
    predicate Caught() { !Foreign? && !NullRef? }
  }
}
