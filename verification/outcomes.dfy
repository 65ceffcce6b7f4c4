/** The value and failure types shared by the pitch lookup and the rules.

    A Python `None` becomes `Option.None`; every exception the rules can
    raise becomes a `Fault` carried by `Result.Err`, so that `:-` propagates
    it exactly as the uncaught exception would propagate to the caller.
 */
module Outcomes {

  /** A value that may be missing, as the lookup's `None`. */
  datatype Option<+T> = None | Some(value: T)

  /** The exceptions raised while evaluating a music-phrase rule. */
  datatype Fault =
    /** `Exception('Invalid music note %s.')`: the note is not a dict. */
    | InvalidMusicNote(shown: string)
    /** `KeyError`: a dict note without a `readableNoteName` entry. */
    | MissingNoteName
    /** `TypeError`: `None - y` on the subject pitch at `position`. */
    | NoneOperand(position: nat)
    /** `IndexError`: the subject pitch sequence has no `position`. */
    | IndexOutOfRange(position: nat)

  /** Either a computed value or the fault that interrupted the computation. */
  datatype Result<+T> = Ok(value: T) | Err(error: Fault) {

    predicate IsFailure() {
      Err?
    }

    function PropagateFailure<U>(): Result<U>
      requires Err?
    {
      Err(error)
    }

    function Extract(): T
      requires Ok?
    {
      value
    }
  }
}
