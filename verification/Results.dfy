/** Results of operations that can reject their input. */
module Results {

  datatype Option<+T> = None | Some(value: T)

  datatype Result<+T> = Ok(value: T) | InvalidInput {
    predicate IsFailure() { InvalidInput? }

    function PropagateFailure<U>(): Result<U>
      requires InvalidInput?
    {
      InvalidInput
    }

    function Extract(): T
      requires Ok?
    {
      value
    }
  }
}
