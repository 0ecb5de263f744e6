/**
 * The exceptions the Python implementation raises, and the Result/Option
 * wrappers every operation of the model returns instead of raising.
 */
module Errors {

  /** One constructor per exception class (or uncaught built-in error) the core can raise. */
  datatype Error =
    | ValueError          // enum lookup of an unknown code, int() of a malformed literal, chr() out of range
    | OverflowError       // int.to_bytes of a value that does not fit
    | IndexError          // a missing token in a directive line
    | KeyError            // OrderedDict.popitem on an empty dictionary
    | ZeroDivisionError   // MOD by zero, divmod by zero
    | MissingOperand      // attribute access on an absent operand (None.type / None.value)
    | TypeError           // a value of the wrong Python type reaches an operation
    | RegisterError       // ASIMError "Register does not exist"
    | MemoryError         // asimr MemoryError "Nonexistent memory address"
    | StackOverflow       // ASIMError "Stack overflow"
    | CpuError            // CPUError "Unsupported instruction"
    | GrammarError(line: int)  // assembler GrammarError, carrying the line counter
    | BadMagic            // the assertion on the "ASIM" magic in Program.load
    | UnicodeDecodeError  // bytes.decode() of ill-formed UTF-8
    | UnicodeEncodeError  // writing a lone surrogate to a UTF-8 stdout

  datatype Option<+T> = None | Some(value: T)

  datatype Result<+T> = Ok(value: T) | Err(error: Error) {
    predicate IsFailure() { Err? }
    function PropagateFailure<U>(): Result<U>
      requires Err?
    {
      Err(error)
    }
    function Extract(): T
      requires Ok?
    {
      value
    }
  }
}
