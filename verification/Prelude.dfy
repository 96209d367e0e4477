/** Types shared by every component: machine integers, failures and encoded texts. */
module Prelude {

  datatype Option<+T> = None | Some(value: T)

  /** The source's `u64`. */
  type u64 = x: int | 0 <= x < 0x1_0000_0000_0000_0000

  /** `checked_add(1)`. */
  function CheckedSuccessor(x: u64): Option<u64> {
    if x + 1 < 0x1_0000_0000_0000_0000 then Some(x + 1) else None
  }

  /** What recovery can find when it walks the causes and contexts of one
      error. `Rejected` stands for every failure that carries only a message. */
  datatype Cause =
    | Unsupported
    | NotActiveReader
    | ForeignRepository
    | ObjectUnavailable
    | MissingStorageHead
    | InvalidData
    | OtherIo
    | InvalidState
    | BudgetExhausted
    | Rejected

  datatype Result<+T> = Ok(value: T) | Err(causes: set<Cause>) {
    predicate IsFailure() {
      Err?
    }

    function PropagateFailure<U>(): Result<U>
      requires Err?
    {
      Err(causes)
    }

    function Extract(): T
      requires Ok?
    {
      value
    }
  }

  /** One guard of a check: `Need` fails with a message, `Supported` with the
      format-version failure. */
  function Need(condition: bool): Result<()> {
    if condition then Ok(()) else Err({Rejected})
  }

  function Supported(condition: bool): Result<()> {
    if condition then Ok(()) else Err({Unsupported})
  }

  function Require(condition: bool, cause: Cause): Result<()> {
    if condition then Ok(()) else Err({cause})
  }

  /** An exact byte text. Decoding forgets `form`, so two different texts can
      decode to one value; `form == 0` is what the encoder writes. */
  datatype Text<+T> = Text(value: T, form: nat) | Malformed(form: nat)

  function Encode<T>(value: T): Text<T> {
    Text(value, 0)
  }

  const FORMAT_VERSION: nat := 6
}
