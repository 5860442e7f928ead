/** Errors raised by the tensor data and the factor model, and the result type that carries them. */
module Status {

  datatype Error =
    | InvalidMode            // TensorData::item / pos: mode >= number of views ("Invalid mode")
    | OutOfRange             // std::vector::at with an index past the end
    | NoLinkMatrix           // predict_latent: no link matrix stored for the mode
    | OnlyTwoModes           // predict(mode, f): model does not have exactly two modes

  datatype Result<T> = Ok(value: T) | Err(error: Error)
  {
    predicate IsFailure() { Err? }

    function PropagateFailure<U>(): Result<U>
      requires Err?
    {
      Err(error)
    }

    function Extract(): T
      requires Ok?
    {
      value
    }
  }

  datatype Option<T> = None | Some(value: T)
}
