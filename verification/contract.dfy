/** The admin registry and donation splitter
    (examples/05-cross-contract/contracts/admin/src/contract.rs).
    The contract's storage is the object's state: the admin map (address to
    join time) and the donation denomination, which is absent until
    instantiation stores it. */
module Contract {
  import opened Msg
  import opened Errors
  import opened KeyOrder
  import opened Decimal
  import opened Payment

  /** The share of each of `n` admins in `donation`: the floor of the quotient.
      What is left over is smaller than `n` and stays with the contract. */
  function Split(donation: nat, n: nat): (per: nat)
    requires n > 0
    ensures per * n <= donation < per * n + n
    ensures donation - per * n == donation % n
  {
    donation / n
  }

  /** Any share meeting the bounds of Split is Split's. */
  lemma SplitUnique(donation: nat, n: nat, per: nat)
    requires n > 0
    requires per * n <= donation < per * n + n
    ensures per == Split(donation, n)
  {
    var q := Split(donation, n);
    MultipleGap(per, q, n);
    MultipleGap(q, per, n);
  }

  lemma MultipleGap(a: nat, b: nat, n: nat)
    ensures a < b ==> a * n + n <= b * n
  {
    if a < b {
      MultiplyMonotone(a + 1, b, n);
      assert (a + 1) * n == a * n + n;
    }
  }

  lemma {:induction false} MultiplyMonotone(a: nat, b: nat, n: nat)
    requires a <= b
    ensures a * n <= b * n
    decreases b - a
  {
    if a < b {
      MultiplyMonotone(a + 1, b, n);
      assert (a + 1) * n == a * n + n;
    }
  }

  /** One transfer of `per` units of `denom` to each recipient, in the recipients' order. */
  function Sends(recipients: seq<Addr>, per: nat, denom: string): seq<BankMsg>
  {
    if recipients == [] then []
    else [Send(recipients[0], Coins(per, denom))] + Sends(recipients[1..], per, denom)
  }

  /** All units a list of transfers moves out of the contract. */
  function TotalSent(msgs: seq<BankMsg>): nat
  {
    if msgs == [] then 0 else CoinsTotal(msgs[0].amount) + TotalSent(msgs[1..])
  }

  function CoinsTotal(coins: seq<Coin>): nat
  {
    if coins == [] then 0 else coins[0].amount + CoinsTotal(coins[1..])
  }

  /** All units a list of transfers moves to `addr`. */
  function ReceivedBy(msgs: seq<BankMsg>, addr: Addr): nat
  {
    if msgs == [] then 0
    else (if msgs[0].toAddress == addr then CoinsTotal(msgs[0].amount) else 0) + ReceivedBy(msgs[1..], addr)
  }

  lemma {:induction false} SendsShape(recipients: seq<Addr>, per: nat, denom: string)
    ensures |Sends(recipients, per, denom)| == |recipients|
    ensures forall i :: 0 <= i < |recipients| ==>
              Sends(recipients, per, denom)[i] == Send(recipients[i], Coins(per, denom))
  {
    if recipients != [] {
      SendsShape(recipients[1..], per, denom);
    }
  }

  /** The transfers move `per` units for every recipient. */
  lemma {:induction false} SendsTotal(recipients: seq<Addr>, per: nat, denom: string)
    ensures TotalSent(Sends(recipients, per, denom)) == |recipients| * per
  {
    if recipients != [] {
      SendsTotal(recipients[1..], per, denom);
      var msgs := Sends(recipients, per, denom);
      assert msgs[1..] == Sends(recipients[1..], per, denom);
      assert CoinsTotal(msgs[0].amount) == per by {
        assert msgs[0].amount == [Coin(denom, per)];
        assert msgs[0].amount[1..] == [];
      }
      assert |recipients| * per == per + |recipients[1..]| * per;
    }
  }

  /** With distinct recipients, each recipient gets `per` units and nobody else gets any. */
  lemma {:induction false} SendsReceived(recipients: seq<Addr>, per: nat, denom: string, addr: Addr)
    requires forall i, j :: 0 <= i < j < |recipients| ==> recipients[i] != recipients[j]
    ensures ReceivedBy(Sends(recipients, per, denom), addr) == if addr in recipients then per else 0
  {
    if recipients != [] {
      var tail := recipients[1..];
      assert forall i, j :: 0 <= i < j < |tail| ==> tail[i] != tail[j] by {
        forall i, j | 0 <= i < j < |tail|
          ensures tail[i] != tail[j]
        {
          assert tail[i] == recipients[i + 1] && tail[j] == recipients[j + 1];
        }
      }
      SendsReceived(tail, per, denom, addr);
      var msgs := Sends(recipients, per, denom);
      assert msgs[1..] == Sends(tail, per, denom);
      assert msgs[0].toAddress == recipients[0];
      assert CoinsTotal(msgs[0].amount) == per by {
        assert msgs[0].amount == [Coin(denom, per)];
        assert msgs[0].amount[1..] == [];
      }
      assert addr in recipients <==> addr == recipients[0] || addr in tail;
    }
  }

  class AdminContract {
    var admins: map<Addr, Timestamp>
    var donationDenom: Option<string>

    /** A contract instance before instantiation: empty storage. */
    constructor ()
      ensures admins == map[] && donationDenom == None
    {
      admins := map[];
      donationDenom := None;
    }

    /** Validates and registers each listed address with the block time `now`, in list
        order (a repeated address is written again with the same time), then stores the
        denomination. The first address the host rejects fails the whole call, and the
        host discards what the loop had written. */
    method Instantiate(msg: InstantiateMsg, now: Timestamp, isValidAddr: string -> bool)
      returns (r: Result<Response, StdError>)
      modifies this
      ensures r.Ok? <==> forall i :: 0 <= i < |msg.admins| ==> isValidAddr(msg.admins[i])
      ensures r.Ok? ==>
        && r.value == Response([], [])
        && donationDenom == Some(msg.donationDenom)
        && (forall a :: a in admins <==> a in old(admins) || a in msg.admins)
        && (forall a :: a in msg.admins ==> admins[a] == now)
        && (forall a :: a in old(admins) && a !in msg.admins ==> admins[a] == old(admins)[a])
      ensures r.Err? ==>
        && (exists i :: && 0 <= i < |msg.admins|
                        && !isValidAddr(msg.admins[i])
                        && (forall j :: 0 <= j < i ==> isValidAddr(msg.admins[j]))
                        && r.error == InvalidAddress(msg.admins[i]))
        && admins == old(admins)
        && donationDenom == old(donationDenom)
    {
      var saved := admins;
      var i := 0;
      while i < |msg.admins|
        invariant 0 <= i <= |msg.admins|
        invariant donationDenom == old(donationDenom) && saved == old(admins)
        invariant forall j :: 0 <= j < i ==> isValidAddr(msg.admins[j])
        invariant forall a :: a in admins <==> a in saved || a in msg.admins[..i]
        invariant forall a :: a in msg.admins[..i] ==> admins[a] == now
        invariant forall a :: a in saved && a !in msg.admins[..i] ==> admins[a] == saved[a]
      {
        var addr := msg.admins[i];
        if !isValidAddr(addr) {
          admins := saved;  // the host rolls back the failed call's writes
          return Err(InvalidAddress(addr));
        }
        admins := admins[addr := now];
        assert msg.admins[..i + 1] == msg.admins[..i] + [addr];
        i := i + 1;
      }
      assert msg.admins[..i] == msg.admins;
      donationDenom := Some(msg.donationDenom);
      r := Ok(Response([], []));
    }

    /** The sender removes itself from the admin map; not being an admin is no error. */
    method Leave(info: MessageInfo) returns (r: Result<Response, StdError>)
      modifies this
      ensures admins == old(admins) - {info.sender}
      ensures info.sender !in admins
      ensures forall a :: a != info.sender ==> (a in admins <==> a in old(admins))
      ensures donationDenom == old(donationDenom)
      ensures r == Ok(Response([], [Attribute("action", "leave"), Attribute("sender", info.sender)]))
    {
      admins := admins - {info.sender};
      r := Ok(Response([], [Attribute("action", "leave"), Attribute("sender", info.sender)]));
    }

    /** Splits the single coin paid in the stored denomination equally among the
        admins, one transfer per admin in ascending address order; the remainder
        of the division stays with the contract. An empty admin set is an error
        (NoAdmins) at the point where the division would be made. */
    function Donate(info: MessageInfo): (r: Result<Response, ContractError>)
      reads this
      ensures donationDenom.None? ==> r == Err(Std(NotFound(DenomKind)))
      ensures donationDenom.Some? && MustPay(info.funds, donationDenom.value).Err? ==>
                r == Err(Payment(MustPay(info.funds, donationDenom.value).error))
      ensures r == Err(NoAdmins) <==>
                donationDenom.Some? && MustPay(info.funds, donationDenom.value).Ok? && |admins| == 0
      ensures r.Ok? <==>
                donationDenom.Some? && MustPay(info.funds, donationDenom.value).Ok? && |admins| > 0
      ensures r.Ok? ==>
        var donation := MustPay(info.funds, donationDenom.value).value;
        var per := Split(donation, |admins|);
        var order := AdminsList().admins;
        && |r.value.messages| == |admins|
        && (forall i :: 0 <= i < |admins| ==>
              r.value.messages[i] == Send(order[i], Coins(per, donationDenom.value)))
        && r.value.attributes == [Attribute("action", "donate"),
                                  Attribute("amount", NatToString(donation)),
                                  Attribute("per_admin", NatToString(per))]
    {
      if donationDenom.None? then Err(Std(NotFound(DenomKind)))
      else
        var denom := donationDenom.value;
        var order := AdminsList().admins;
        match MustPay(info.funds, denom)
        case Err(e) => Err(Payment(e))
        case Ok(donation) =>
          if |order| == 0 then Err(NoAdmins)
          else
            var per := Split(donation, |order|);
            SendsShape(order, per, denom);
            Ok(Response(Sends(order, per, denom),
                        [Attribute("action", "donate"),
                         Attribute("amount", NatToString(donation)),
                         Attribute("per_admin", NatToString(per))]))
    }

    /** Dispatches an execute message. Leave changes the admin map; Donate changes nothing. */
    method Execute(info: MessageInfo, msg: ExecuteMsg) returns (r: Result<Response, ContractError>)
      modifies this
      ensures msg.Leave? ==>
        && admins == old(admins) - {info.sender}
        && donationDenom == old(donationDenom)
        && r == Ok(Response([], [Attribute("action", "leave"), Attribute("sender", info.sender)]))
      ensures msg.Donate? ==>
        && admins == old(admins)
        && donationDenom == old(donationDenom)
        && r == Donate(info)
    {
      if msg.Leave? {
        var left := Leave(info);
        r := match left
             case Ok(resp) => Ok(resp)
             case Err(e) => Err(Std(e));
      } else {
        r := Donate(info);
      }
    }

    /** Every current admin, once each, in ascending address order. */
    function AdminsList(): (r: AdminsListResp)
      reads this
      ensures StrictlyAscending(r.admins)
      ensures forall a :: a in r.admins <==> a in admins
      ensures |r.admins| == |admins|
    {
      AdminsListResp(SortedKeys(admins.Keys))
    }

    /** The stored join time of `admin`, taken as a raw key without validation. */
    function JoinTime(admin: string): (r: Result<JoinTimeResp, StdError>)
      reads this
      ensures r.Ok? <==> admin in admins
      ensures r.Ok? ==> r.value.joined == admins[admin]
      ensures r.Err? ==> r.error == NotFound(TimestampKind)
    {
      if admin in admins then Ok(JoinTimeResp(admins[admin]))
      else Err(NotFound(TimestampKind))
    }

    /** Dispatches a query message; only a join-time query can fail. */
    function Query(msg: QueryMsg): (r: Result<QueryResponse, StdError>)
      reads this
      ensures r.Err? <==> msg.JoinTime? && msg.admin !in admins
      ensures r.Ok? && msg.AdminsList? ==> r.value.ListedAdmins? && r.value.list == AdminsList()
      ensures r.Ok? && msg.JoinTime? ==> r.value == JoinedAt(JoinTimeResp(admins[msg.admin]))
    {
      match msg
      case AdminsList => Ok(ListedAdmins(AdminsList()))
      case JoinTime(admin) =>
        match JoinTime(admin)
        case Ok(resp) => Ok(JoinedAt(resp))
        case Err(e) => Err(e)
    }
  }

  /** A successful donation moves out the floor share for every admin; what the
      contract keeps is the remainder of the division, less than the number of admins. */
  lemma DonateKeepsRemainder(c: AdminContract, info: MessageInfo)
    requires c.donationDenom.Some? && MustPay(info.funds, c.donationDenom.value).Ok? && |c.admins| > 0
    ensures
      var donation := MustPay(info.funds, c.donationDenom.value).value;
      var n := |c.admins|;
      var sent := TotalSent(c.Donate(info).value.messages);
      && sent == n * Split(donation, n)
      && sent <= donation < sent + n
      && donation - sent == donation % n
  {
    var denom := c.donationDenom.value;
    var donation := MustPay(info.funds, denom).value;
    var per := Split(donation, |c.admins|);
    var order := c.AdminsList().admins;
    SendsShape(order, per, denom);
    assert c.Donate(info).value.messages == Sends(order, per, denom);
    SendsTotal(order, per, denom);
  }

  /** In a successful donation each admin receives the floor share and any other
      address receives nothing. */
  lemma DonatePaysEachAdmin(c: AdminContract, info: MessageInfo, addr: Addr)
    requires c.donationDenom.Some? && MustPay(info.funds, c.donationDenom.value).Ok? && |c.admins| > 0
    ensures
      var donation := MustPay(info.funds, c.donationDenom.value).value;
      ReceivedBy(c.Donate(info).value.messages, addr) ==
        if addr in c.admins then Split(donation, |c.admins|) else 0
  {
    var denom := c.donationDenom.value;
    var donation := MustPay(info.funds, denom).value;
    var per := Split(donation, |c.admins|);
    var order := c.AdminsList().admins;
    SendsShape(order, per, denom);
    assert c.Donate(info).value.messages == Sends(order, per, denom);
    AscendingIsDistinct(order);
    SendsReceived(order, per, denom, addr);
  }
}
