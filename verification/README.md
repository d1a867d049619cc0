# Admin registry and donation splitter, modelled in Dafny

This project models the CosmWasm "admin" contract of the CosmWasm book's
cross-contract example. The contract keeps a registry of admins. Each admin is
an address mapped to the block time at which it joined. The contract also stores
one donation denomination. Incoming donations are split equally among the
current admins.

The entry points are modelled as members of the class `Contract.AdminContract`.
Its two fields are the contract's storage:

- `admins: map<Addr, Timestamp>` is the `ADMINS` map.
- `donationDenom: Option<string>` is the `DONATION_DENOM` item. It is `None`
  until instantiation stores it.

The two paths that write storage are methods with `modifies this`:

- `Instantiate` validates and registers each listed address in a loop.
- `Leave` removes the sender.

`Execute` dispatches the execute messages. The read-only paths are functions
that read the object: `Donate`, `AdminsList`, `JoinTime` and the `Query`
dispatcher.

Host collaborators become parameters or plain functions:

- Address validation is the parameter `isValidAddr: string -> bool`. A string
  the host accepts becomes an address with the same text.
- The block time is the parameter `now`.
- Payment extraction is `Payment.MustPay`. It accepts exactly one coin, with a
  non-zero amount, in the requested denomination.
- The ascending iteration of the map's keys is `KeyOrder.SortedKeys`, under
  the byte-wise lexicographic order `KeyOrder.Below`.

A donate call can meet an empty admin set. The source divides by zero there at
`contract.rs:69`, and the Rust runtime aborts the call. The model gives this
case its own error outcome, `ContractError.NoAdmins`. It is returned at the point
where the division would happen: after the denomination load and after payment
extraction. So the order in which errors take precedence is the source's. Both
the model and the source leave the state unchanged in this case.

A failed instantiation is rolled back by the host. `Instantiate` shows this
explicitly: it restores the admin map it started from before it returns the
error.

`Scenarios` restates the contract's own test cases as client methods. The
bank's balance checks become sums over the emitted transfers (`ReceivedBy`,
`TotalSent`).

## Model

| member | source | states |
|---|---|---|
| `Contract.AdminContract.constructor` | examples/05-cross-contract/contracts/admin/src/state.rs:4-5 | a contract before instantiation has an empty admin map and no stored denomination |
| `Contract.AdminContract.Instantiate` | examples/05-cross-contract/contracts/admin/src/contract.rs:9-22 | succeeds iff the host accepts every listed address. On success: the response has no messages and no attributes; the admin keys are the old keys plus the listed addresses; every listed address (a repeated one too) maps to the block time; other entries keep their times; the denomination is the message's. On failure: the error names the first rejected address, and the map and denomination are unchanged |
| `Contract.AdminContract.Leave` | examples/05-cross-contract/contracts/admin/src/contract.rs:50-58 | always succeeds, members or not. Removes exactly the sender's entry and leaves every other entry and the denomination as they were. The attributes are exactly `action=leave` and `sender=<sender>` |
| `Contract.AdminContract.Execute` | examples/05-cross-contract/contracts/admin/src/contract.rs:33-45 | Leave behaves as above and cannot fail. Donate leaves the admin map and the denomination unchanged, and its result is `Donate`'s |
| `Contract.AdminContract.Donate` | examples/05-cross-contract/contracts/admin/src/contract.rs:60-83 | no stored denomination gives a NotFound error. A failed payment extraction gives that Payment error. It succeeds iff the payment is accepted and there is at least one admin; NoAdmins is returned exactly when the payment is accepted and the admin set is empty. On success: one transfer per admin, in the `AdminsList` order, each of the floor share in the stored denomination; the attributes are `action=donate`, `amount=<donation>`, `per_admin=<share>` in decimal |
| `Contract.AdminContract.AdminsList` | examples/05-cross-contract/contracts/admin/src/contract.rs:89-96 | the list is strictly ascending, so it has no duplicates. It holds exactly the admin map's keys, and its length is the number of admins |
| `Contract.AdminContract.JoinTime` | examples/05-cross-contract/contracts/admin/src/contract.rs:98-102 | succeeds iff the raw string is a key of the admin map, and then returns its stored time; otherwise NotFound |
| `Contract.AdminContract.Query` | examples/05-cross-contract/contracts/admin/src/contract.rs:24-31 | only a join-time query for a non-admin fails. A list query returns `AdminsList`, and a join-time query returns the stored time |
| `Contract.Split` | examples/05-cross-contract/contracts/admin/src/contract.rs:69 | the share `per` of `n` admins satisfies `per*n <= donation < per*n + n`, and the amount left over is `donation mod n` |
| `Contract.SplitUnique` | examples/05-cross-contract/contracts/admin/src/contract.rs:69 | the bounds determine the share: any `per` within them equals `Split` |
| `Contract.SendsShape` | examples/05-cross-contract/contracts/admin/src/contract.rs:71-74 | the transfer list has one transfer per recipient. The i-th goes to the i-th recipient and carries `per` units of the denomination |
| `Contract.SendsTotal` | examples/05-cross-contract/contracts/admin/src/contract.rs:71-77 | the transfers move `per` units for each recipient in total |
| `Contract.SendsReceived` | examples/05-cross-contract/contracts/admin/src/contract.rs:71-77 | with distinct recipients, each recipient receives exactly `per` and any other address receives nothing |
| `Contract.DonateKeepsRemainder` | examples/05-cross-contract/contracts/admin/src/contract.rs:67-77 | a successful donation sends `n * per` in total. That total is at most the donation and more than the donation minus `n`. The contract keeps exactly `donation mod n` |
| `Contract.DonatePaysEachAdmin` | examples/05-cross-contract/contracts/admin/src/contract.rs:67-77 | in a successful donation every admin receives the floor share and every other address receives nothing |
| `Payment.MustPay` | examples/05-cross-contract/contracts/admin/src/contract.rs:67 | succeeds iff the funds are exactly one coin, in the requested denomination, with a non-zero amount. The value is that coin's amount |
| `KeyOrder.SortedKeys` | examples/05-cross-contract/contracts/admin/src/contract.rs:62-64 | the listing of a key set is strictly ascending, holds exactly the set's elements, and has the set's size |
| `KeyOrder.AscendingIsSortedKeys` | examples/05-cross-contract/contracts/admin/src/contract.rs:90-92 | the ascending listing is deterministic: any strictly ascending sequence holding exactly a set's keys is that set's `SortedKeys` |
| `KeyOrder.AscendingIsDistinct` | examples/05-cross-contract/contracts/admin/src/contract.rs:90-93 | a strictly ascending key list has no repeated address |
| `Decimal.NatToString` | examples/05-cross-contract/contracts/admin/src/contract.rs:79-80 | an amount's text is non-empty decimal digits without a leading zero. It starts with '0' iff the amount is 0, and is one digit long iff the amount is below 10 |
| `Decimal.ParseNatToString` | examples/05-cross-contract/contracts/admin/src/contract.rs:79-80 | reading an amount's text back as a decimal number gives the amount |
| `Decimal.NatToStringInjective` | examples/05-cross-contract/contracts/admin/src/contract.rs:79-80 | different amounts give different attribute texts |
| `Scenarios.Admin1BeforeAdmin2` | examples/05-cross-contract/contracts/admin/src/contract.rs:157-167 | the ascending listing of {admin1, admin2} is `[admin1, admin2]` |
| `Scenarios.EmptyInstantiationScenario` | examples/05-cross-contract/contracts/admin/src/contract.rs:115-140 | instantiating with no admins, then querying the list, gives an empty list |
| `Scenarios.InstantiateTwo` | examples/05-cross-contract/contracts/admin/src/contract.rs:142-155 | instantiating a fresh contract with admin1 and admin2 gives a map of exactly those two, both at the block time, and the denomination `eth` |
| `Scenarios.InstantiationScenario` | examples/05-cross-contract/contracts/admin/src/contract.rs:142-198 | after that instantiation the list query gives `[admin1, admin2]` and both join times are the block time. The join-time query for admin3 fails with NotFound |
| `Scenarios.FiveEthBetweenTwo` | examples/05-cross-contract/contracts/admin/src/contract.rs:227-270 | with admins admin1 and admin2 and denomination eth, a payment of 5 eth succeeds. admin1 and admin2 receive 2 each, the payer receives nothing, and 4 units leave the contract |
| `Scenarios.FiveEthAttributes` | examples/05-cross-contract/contracts/admin/src/contract.rs:227-233 | the same donation carries the attributes `action=donate`, `amount=5`, `per_admin=2` |
| `Scenarios.DonationScenario` | examples/05-cross-contract/contracts/admin/src/contract.rs:201-270 | 5 eth paid by `user` to two admins succeeds with attributes `amount=5` and `per_admin=2`. Each admin receives 2 and the payer receives nothing back. The contract keeps 1 |
| `Scenarios.LeaveTwice` | examples/05-cross-contract/contracts/admin/src/contract.rs:50-58 | leaving twice succeeds both times with the same response. The final map is the old one without the sender, so the second leave changes nothing |

## Left out

- Contract.AdminContract.Donate: returns the distinct error `NoAdmins` when the admin set is empty. At `contract.rs:69` the source instead divides by zero, which panics and aborts the call. Both outcomes fail the call and leave the state unchanged; only the kind of failure differs.
- Serialization (`to_binary`, the JSON wire form, the `QueryResponses` schema) is not modelled. Query results are the datatype `Msg.QueryResponse`.
- Storage read failures other than a missing denomination are not modelled. A failure to deserialize a stored key or value while listing the admins (`contract.rs:62-65`, `90-93`) cannot occur in the model.
- The internals of address validation, of `cw_utils::must_pay` and of the `cw_storage_plus` map and its iteration order are not part of this model. They stand as the parameter `isValidAddr`, the function `Payment.MustPay` and `KeyOrder.SortedKeys`.
- The bank does not execute transfers here, and no account balance is modelled. The model yields the list of transfers, and the tests' balance checks are sums over it. Whether the host accepts a zero-amount transfer is not modelled; such a transfer is emitted when the donation is smaller than the number of admins.
- Host rollback is modelled only where a call can fail after it has written, which is a failing `Instantiate`. Every other failing path fails before it writes anything.
- A response's events, data and sub-message reply settings are not modelled. Each emitted message is a plain `BankMsg.Send`.
- Amounts (`Uint128`) and timestamps (`u64` nanoseconds) are unbounded `nat`. Overflow cannot arise in the split: the share is at most the single coin's amount.
- The `NotFound` error carries a short kind name (`Timestamp`, `String`), not the host's full type name.
- `Unauthorized` is declared, as in `error.rs`, but this contract never raises it. The member-adding variant of the contract that raises it (and its messages in `examples/03-basics`) is not part of this model.
- The thin entry-point forwarders of `examples/03-contract-structure/src/lib.rs` are not part of this model.
