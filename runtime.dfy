/**
 * What the on-ledger programs share: Rust's `u8`, public keys, the ways an
 * instruction can abort, and the all-or-nothing rule of a transaction.
 */
module Runtime {

  /** Rust's `u8`. */
  newtype u8 = x: int | 0 <= x < 256

  datatype Option<+T> = None | Some(value: T)

  datatype Result<+T, +E> = Ok(value: T) | Err(error: E)

  /** A public key (an account address or a program id), named by its base58 text. */
  datatype Pubkey = Pubkey(base58: string)

  /** Why a transaction was rejected. */
  datatype Abort =
    | AccountAlreadyInUse     // `init` on an address that already holds an account
    | AccountNotInitialized   // an instruction names an address that holds no account
    | AccountDidNotSerialize  // the account's new data does not fit its allocated space
    | UnwrapOnNone            // `checked_add` / `checked_sub` overflowed and `.unwrap()` panicked
    | RemainderByZero         // `x % 0` panicked

  /** What the client learns of a transaction. */
  datatype Status = Committed | Aborted(reason: Abort)

  /** `a.checked_add(b)` on `u8`. */
  function CheckedAdd(a: u8, b: u8): Option<u8> {
    if a as int + b as int < 256 then Some((a as int + b as int) as u8) else None
  }

  /** `a.checked_sub(b)` on `u8`. */
  function CheckedSub(a: u8, b: u8): Option<u8> {
    if a >= b then Some(a - b) else None
  }

  /**
   * A transaction is atomic: when the instruction aborts, none of its writes
   * reach the ledger.
   */
  function Settle<L>(before: L, outcome: Result<L, Abort>): (Status, L) {
    match outcome
    case Ok(after) => (Committed, after)
    case Err(e) => (Aborted(e), before)
  }
}
