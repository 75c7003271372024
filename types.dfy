/**
 * The records shared by the account store and the HTTP handlers: the account row,
 * the transfer request, Go's 64-bit integers and the errors the handlers return.
 */
module Types {

  const TwoTo63: int := 0x8000_0000_0000_0000
  const TwoTo64: int := 0x1_0000_0000_0000_0000

  /** Go's `int64`, the type of an account's balance and phone number. */
  type Int64 = x: int | -0x8000_0000_0000_0000 <= x < 0x8000_0000_0000_0000

  /** The value Go's `int64` arithmetic yields for the mathematical result `x`: two's-complement wrap-around. */
  function Wrap64(x: int): (r: Int64)
    ensures -TwoTo63 <= x < TwoTo63 ==> r == x
    ensures (r - x) % TwoTo64 == 0
  {
    (x + TwoTo63) % TwoTo64 - TwoTo63
  }

  /**
   * Subtracting an amount and adding it back restores the original int64 value even when
   * the subtraction wrapped: the compensating re-credit of a transfer is exact.
   */
  lemma WrapUndo(b: Int64, m: Int64)
    ensures Wrap64(Wrap64(b - m) + m) == b
  {
  }

  /** One row of the `account` table, with the fields in the order the row is scanned. */
  datatype Account = Account(
    id: int,
    firstName: string,
    lastName: string,
    email: string,
    encryptedPassword: string,
    phone: Int64,
    balance: Int64,
    createdAt: int)

  /** What the database does with one write statement: accepts it, or refuses it with the driver's error text. */
  datatype WriteOutcome = Accepted | Refused(cause: string)

  /** The JSON body of `POST /transfer`. */
  datatype TransferRequest = TransferRequest(fromAccount: int, toAccount: int, amount: Int64)

  /** The errors the store and the handlers return; each maps to one message text. */
  datatype Error =
    | AccountIdNotFound(id: int)            // "account <id> not found"
    | AccountEmailNotFound(email: string)   // "account <email> not found"
    | InsufficientFunds                     // "insufficient funds"
    | UpdateFailed(cause: string)           // "error updating account: <cause>"
    | DriverError(cause: string)            // an insert or delete refused by the database, returned as is
    | MalformedBody                         // the request body is not valid JSON for the expected record
    | SigningFailed                         // the login token could not be signed
}
