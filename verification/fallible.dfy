/** Failure-compatible result type for the interpreter core.

    Every place where the interpreter panics (an arithmetic overflow checked in
    a debug build, an index out of bounds, an `unwrap` on an error) becomes an
    `Err` carrying the reason, so callers can see exactly when a step fails.
 */
module Fallible {

  /** Why an operation of the interpreter fails. */
  datatype Fault =
    | UnknownInstruction   // the decoder found no slot for the opcode
    | StackOverflow        // a push onto a full 16-entry call stack
    | StackUnderflow       // a pop from an empty call stack
    | IndexOutOfBounds     // a memory read or slice outside the addressed bytes
    | ArithmeticOverflow   // an unsigned addition that does not fit its width
    | ArithmeticUnderflow  // an unsigned subtraction that would go below zero
    | NotARegister         // a register number above 0xF
    | WrongOpcode          // an instruction decoded from an opcode of another family

  datatype Option<+T> = None | Some(value: T)

  datatype Result<+T> = Ok(value: T) | Err(fault: Fault) {

    predicate IsFailure() {
      Err?
    }

    function PropagateFailure<U>(): Result<U>
      requires Err?
    {
      Err(fault)
    }

    function Extract(): T
      requires Ok?
    {
      value
    }
  }
}
