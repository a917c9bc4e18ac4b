/**
 * The ways a roster run can fail, named after the Python exception that the
 * scripts raise and the reason it is raised, plus the Result and Option
 * wrappers the rest of the model returns.
 */
module Outcomes {

  datatype Error =
    | UnpackError       // ValueError: a row has too few fields for its unpacking pattern
    | DateError         // ValueError: strptime rejects the start-date field
    | NotScheduled      // ValueError: the name has no job in that week
    | IndexError        // IndexError: a list is indexed past its end
    | NotATemplate      // ValueError: the filename template has no `{}` placeholder
    | FormatIndexError  // IndexError: str.format meets more `{}` than arguments
    | NoHeader          // StopIteration: there is no header row to skip

  datatype Result<+T> = Ok(value: T) | Err(error: Error) {
    predicate IsFailure() { Err? }

    function PropagateFailure<U>(): Result<U>
      requires Err?
    {
      Err(error)
    }

    function Extract(): T
      requires Ok?
    {
      value
    }
  }

  datatype Option<+T> = None | Some(value: T)
}
