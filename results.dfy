/** Optional values, decode results, and the ways a decode of a match-info file is abandoned. */
module Results {
  import opened Words

  datatype Option<+T> = None | Some(value: T)

  /** Why a decode stopped. Every kind aborts the whole file: there is no partial record. */
  datatype DecodeError =
    | Truncated                                            // a byte read ran past the end of the stream
    | UnexpectedTag(expected: byte, actual: byte, offset: nat) // a preamble byte was not the one required there
    | UnknownTag(tag: byte)                                // a round tag outside the known set
    | SlotOverflow                                         // a repeated slot tag ran past the player or team array
    | InvalidSteamIdFormat                                 // text matching neither SteamId pattern
    | NumericOverflow                                      // a decimal number too large for its integer type
    | NegativeCount                                        // a negative byte count handed to a bulk read
    | TimeOutOfRange                                       // seconds outside the date or duration range

  datatype Result<+T> = Ok(value: T) | Err(error: DecodeError)
  {
    predicate IsFailure() { Err? }

    function PropagateFailure<U>(): Result<U>
      requires Err?
    {
      Err(error)
    }

    function Extract(): T
      requires Ok?
    {
      value
    }
  }

  /** The outcome of an operation that only changes state. */
  datatype Outcome = Pass | Fail(error: DecodeError)
}
