/** Error kinds of the admin contract
    (examples/05-cross-contract/contracts/admin/src/error.rs) and the library errors it passes on. */
module Errors {
  import opened Msg

  /** The storage and API errors the core can raise (a subset of cosmwasm_std's StdError). */
  datatype StdError =
    | InvalidAddress(input: string)   // rejected by the host's address validation
    | NotFound(kind: string)          // a storage load found no value of this kind

  /** The errors `cw_utils::must_pay` can return. */
  datatype PaymentError =
    | NoFunds
    | MissingDenom(denom: string)
    | MultipleDenoms

  datatype ContractError =
    | Std(std: StdError)
    | Unauthorized(sender: Addr)
    | Payment(payment: PaymentError)
    | NoAdmins                        // donate with an empty admin set; see Contract.AdminContract.Donate

  /** Kind names reported by a failed storage load. */
  const TimestampKind: string := "Timestamp"
  const DenomKind: string := "String"
}
