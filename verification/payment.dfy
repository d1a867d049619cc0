/** Payment extraction: `cw_utils::must_pay`, which the contract calls on the funds
    of a donate call. Its source is not part of this model; this function follows
    that library's documented behaviour: exactly one coin, of a non-zero amount,
    in the requested denomination. */
module Payment {
  import opened Msg
  import opened Errors

  function MustPay(funds: seq<Coin>, denom: string): (r: Result<nat, PaymentError>)
    ensures r.Ok? <==> |funds| == 1 && funds[0].denom == denom && funds[0].amount > 0
    ensures r.Ok? ==> r.value == funds[0].amount && r.value > 0
  {
    if |funds| == 0 then Err(NoFunds)
    else if |funds| > 1 then Err(MultipleDenoms)
    else if funds[0].amount == 0 then Err(NoFunds)
    else if funds[0].denom != denom then Err(MissingDenom(denom))
    else Ok(funds[0].amount)
  }
}
