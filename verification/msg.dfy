/** Messages, responses and host-side value shapes of the admin contract
    (examples/05-cross-contract/contracts/admin/src/msg.rs) together with the
    few cosmwasm_std types the contract builds or receives. */
module Msg {

  /** A validated account address; its text is its identity. */
  type Addr = string

  /** A point in time on the chain, in nanoseconds since the epoch. */
  type Timestamp = nat

  datatype Option<T> = None | Some(value: T)

  datatype Result<T, E> = Ok(value: T) | Err(error: E)

  /** An amount of one denomination; the source's Uint128 is modelled as nat. */
  datatype Coin = Coin(denom: string, amount: nat)

  /** What the host tells the contract about the call: who sends it and which funds come with it. */
  datatype MessageInfo = MessageInfo(sender: Addr, funds: seq<Coin>)

  /** The only outgoing message the contract emits: a bank transfer from the contract's balance. */
  datatype BankMsg = Send(toAddress: Addr, amount: seq<Coin>)

  datatype Attribute = Attribute(key: string, value: string)

  /** A successful execution result: messages for the host to dispatch, then attributes, in order. */
  datatype Response = Response(messages: seq<BankMsg>, attributes: seq<Attribute>)

  datatype InstantiateMsg = InstantiateMsg(admins: seq<string>, donationDenom: string)

  datatype ExecuteMsg = Leave | Donate

  datatype QueryMsg = AdminsList | JoinTime(admin: string)

  datatype AdminsListResp = AdminsListResp(admins: seq<Addr>)

  datatype JoinTimeResp = JoinTimeResp(joined: Timestamp)

  /** What `query` hands back to the host (serialized there; the wire form is not modelled). */
  datatype QueryResponse = ListedAdmins(list: AdminsListResp) | JoinedAt(time: JoinTimeResp)

  /** `coins(amount, denom)`: a one-element list of funds. */
  function Coins(amount: nat, denom: string): seq<Coin>
  {
    [Coin(denom, amount)]
  }
}
