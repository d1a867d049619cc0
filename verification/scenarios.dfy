/** The contract's own test cases (contract.rs, module `tests`) restated as
    client methods: what a caller can conclude from the specifications alone.
    The host's test application is replaced by a fresh contract object; the
    bank's balances are read off the list of transfers. */
module Scenarios {
  import opened Msg
  import opened Errors
  import opened KeyOrder
  import opened Payment
  import opened Contract

  /** "admin1" comes before "admin2" in key order. */
  lemma Admin1BeforeAdmin2()
    ensures SortedKeys({"admin1", "admin2"}) == ["admin1", "admin2"]
  {
    assert StrictlyAscending(["admin1", "admin2"]);
    AscendingIsSortedKeys(["admin1", "admin2"], {"admin1", "admin2"});
  }

  /** Instantiating with no admins lists none. */
  method EmptyInstantiationScenario(isValidAddr: string -> bool, now: Timestamp)
    returns (listed: Result<QueryResponse, StdError>)
    ensures listed == Ok(ListedAdmins(AdminsListResp([])))
  {
    var c := new AdminContract();
    var r := c.Instantiate(InstantiateMsg([], "eth"), now, isValidAddr);
    assert c.admins.Keys == {};
    listed := c.Query(AdminsList);
  }

  /** A fresh contract instantiated with admin1 and admin2 (both accepted by the host)
      holds exactly those two admins. */
  method InstantiateTwo(isValidAddr: string -> bool, now: Timestamp) returns (c: AdminContract)
    requires isValidAddr("admin1") && isValidAddr("admin2")
    ensures fresh(c)
    ensures c.admins == map["admin1" := now, "admin2" := now]
    ensures c.donationDenom == Some("eth")
  {
    c := new AdminContract();
    var admins: seq<string> := ["admin1", "admin2"];
    var r := c.Instantiate(InstantiateMsg(admins, "eth"), now, isValidAddr);
    assert admins[0] == "admin1" && admins[1] == "admin2";
    assert r.Ok?;
    assert c.admins.Keys == {"admin1", "admin2"};
  }

  /** Instantiating with admin1 and admin2 lists both in order, both joined at the
      block time, and admin3 is not found. */
  method InstantiationScenario(isValidAddr: string -> bool, now: Timestamp)
    returns (listed: Result<QueryResponse, StdError>, joined1: Result<QueryResponse, StdError>,
             joined2: Result<QueryResponse, StdError>, joined3: Result<QueryResponse, StdError>)
    requires isValidAddr("admin1") && isValidAddr("admin2")
    ensures listed == Ok(ListedAdmins(AdminsListResp(["admin1", "admin2"])))
    ensures joined1 == Ok(JoinedAt(JoinTimeResp(now)))
    ensures joined2 == Ok(JoinedAt(JoinTimeResp(now)))
    ensures joined3 == Err(NotFound(TimestampKind))
  {
    var c := InstantiateTwo(isValidAddr, now);
    assert c.admins.Keys == {"admin1", "admin2"};
    Admin1BeforeAdmin2();
    listed := c.Query(AdminsList);
    joined1 := c.Query(JoinTime("admin1"));
    joined2 := c.Query(JoinTime("admin2"));
    assert "admin3" !in c.admins;
    joined3 := c.Query(JoinTime("admin3"));
  }

  /** Paying 5 eth to a contract whose admins are admin1 and admin2 sends 2 to each:
      4 leave the contract and it keeps 1. */
  lemma FiveEthBetweenTwo(c: AdminContract, info: MessageInfo)
    requires c.admins.Keys == {"admin1", "admin2"} && c.donationDenom == Some("eth")
    requires info == MessageInfo("user", [Coin("eth", 5)])
    ensures c.Donate(info).Ok?
    ensures ReceivedBy(c.Donate(info).value.messages, "admin1") == 2
    ensures ReceivedBy(c.Donate(info).value.messages, "admin2") == 2
    ensures ReceivedBy(c.Donate(info).value.messages, "user") == 0
    ensures TotalSent(c.Donate(info).value.messages) == 4
  {
    assert "user" !in c.admins;
    assert MustPay(info.funds, "eth") == Ok(5);
    assert |c.admins| == 2 by { assert |c.admins.Keys| == 2; }
    assert Split(5, 2) == 2;
    DonateKeepsRemainder(c, info);
    DonatePaysEachAdmin(c, info, "admin1");
    DonatePaysEachAdmin(c, info, "admin2");
    DonatePaysEachAdmin(c, info, "user");
  }

  /** The attributes of that donation name the amount 5 and the share 2. */
  lemma FiveEthAttributes(c: AdminContract, info: MessageInfo)
    requires c.admins.Keys == {"admin1", "admin2"} && c.donationDenom == Some("eth")
    requires info == MessageInfo("user", [Coin("eth", 5)])
    ensures c.Donate(info).Ok?
    ensures c.Donate(info).value.attributes ==
              [Attribute("action", "donate"), Attribute("amount", "5"), Attribute("per_admin", "2")]
  {
    assert MustPay(info.funds, "eth") == Ok(5);
    assert |c.admins| == 2 by { assert |c.admins.Keys| == 2; }
    assert Split(5, 2) == 2;
    assert Decimal.NatToString(5) == "5";
    assert Decimal.NatToString(2) == "2";
  }

  /** The donation test: a payment of 5 eth from `user` split between admin1 and admin2
      leaves 2 with each admin, nothing returned to the payer, and 1 with the contract. */
  method DonationScenario(isValidAddr: string -> bool, now: Timestamp)
    returns (r: Result<Response, ContractError>, toAdmin1: nat, toAdmin2: nat, toUser: nat, retained: nat)
    requires isValidAddr("admin1") && isValidAddr("admin2")
    ensures r.Ok?
    ensures r.value.attributes ==
              [Attribute("action", "donate"), Attribute("amount", "5"), Attribute("per_admin", "2")]
    ensures toAdmin1 == 2 && toAdmin2 == 2 && toUser == 0 && retained == 1
  {
    var c := InstantiateTwo(isValidAddr, now);
    assert c.admins.Keys == {"admin1", "admin2"};
    var info := MessageInfo("user", [Coin("eth", 5)]);
    r := c.Execute(info, Donate);
    FiveEthBetweenTwo(c, info);
    FiveEthAttributes(c, info);
    toAdmin1 := ReceivedBy(r.value.messages, "admin1");
    toAdmin2 := ReceivedBy(r.value.messages, "admin2");
    toUser := ReceivedBy(r.value.messages, "user");
    retained := 5 - TotalSent(r.value.messages);
  }

  /** Leaving twice never fails, and the second time changes nothing. */
  method LeaveTwice(c: AdminContract, info: MessageInfo) returns (first: Result<Response, ContractError>, second: Result<Response, ContractError>)
    modifies c
    ensures first.Ok? && second.Ok? && first == second
    ensures c.admins == old(c.admins) - {info.sender}
    ensures c.donationDenom == old(c.donationDenom)
  {
    first := c.Execute(info, Leave);
    ghost var afterFirst := c.admins;
    second := c.Execute(info, Leave);
    assert c.admins == afterFirst;
  }
}
