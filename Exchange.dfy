/** The `Exchange` component's state: the public order book, the connected
    account's orders and balances, and the one contract write it issues.

    The HTTP reads are not performed here: each `fetch(...)` followed by
    `.json()` is a `Response` given to the method that awaits it. The wallet
    `write` of wagmi is a sink: the calls handed to it are appended to
    `submitted`. */
module Exchange {
  import opened Options
  import Utf8
  import ActionPayload

  /** One row of an ask or bid list. */
  datatype Level = Level(price: int, quantity: int)

  /** One row of the balance list. */
  datatype TokenBalance = TokenBalance(token: string, total: int, available: int)

  /** The outcome of one awaited `fetch(...)` and `.json()`: the parsed body,
      or a rejection (network failure, or a body that is not JSON). */
  datatype Response<T> = Received(body: T) | Failed

  /** The read endpoints the component requests. */
  datatype Endpoint = Asks | Bids | UserAsks | UserBids | UserBalance(account: string)

  /** The rollup contract `useContractWrite` is bound to. */
  const RollupAddress: string := "0xeA8538B194742b992B19e694C13D63120908880e"

  /** One call handed to wagmi's `write`: the bound contract and function,
      and the `args`, `value` and `from` of the call. */
  datatype WriteCall = WriteCall(
    contract: string,
    functionName: string,
    args: seq<Utf8.Bytes>,
    value: nat,
    from: Option<string>)

  /** The call `addOrder` makes: a fixed buy order of quantity 1 at price 1. */
  function AddOrderCall(address: Option<string>): WriteCall {
    WriteCall(RollupAddress, "addInput", [ActionPayload.AddOrderTransactionData("BUY", 1, 1)], 0, address)
  }

  /** `addOrder` submits to the rollup's `addInput` one payload, which decodes
      to a buy of quantity 1 at price 1, with no ether attached and sent from
      the connected address. */
  lemma AddOrderCallSubmitsFixedBuy(address: Option<string>)
    ensures AddOrderCall(address).contract == RollupAddress
    ensures AddOrderCall(address).functionName == "addInput"
    ensures |AddOrderCall(address).args| == 1
    ensures ActionPayload.DecodeAction(AddOrderCall(address).args[0])
         == Some(ActionPayload.AddOrder("BUY", 1, 1))
    ensures AddOrderCall(address).value == 0 && AddOrderCall(address).from == address
  {
    ActionPayload.AddOrderRoundTrip("BUY", 1, 1);
  }

  /** `if (address)`: an absent address and the empty string are both falsy. */
  predicate IsConnected(address: Option<string>) {
    address.Some? && address.value != ""
  }

  function Last<T>(s: seq<T>): T
    requires s != []
  {
    s[|s| - 1]
  }

  class ExchangeState {
    var asks: seq<Level>
    var bids: seq<Level>
    var userAsks: seq<Level>
    var userBids: seq<Level>
    var userBalances: seq<TokenBalance>
    /** What `useAccount` currently reports. */
    var address: Option<string>
    /** The calls handed to `write`, oldest first. */
    var submitted: seq<WriteCall>

    /** Each (asks, bids) pair that a completed `fetchOrders` wrote. */
    ghost var publicBooks: seq<(seq<Level>, seq<Level>)>
    /** Each (asks, bids) pair that a completed `fetchUserOrders` wrote. */
    ghost var userBooks: seq<(seq<Level>, seq<Level>)>

    /** The two lists of a book always come from one and the same fetch: they
        are either both still initial or both the last pair written. */
    ghost predicate Valid()
      reads this
    {
      && (if publicBooks == [] then asks == [] && bids == [] else (asks, bids) == Last(publicBooks))
      && (if userBooks == [] then userAsks == [] && userBids == [] else (userAsks, userBids) == Last(userBooks))
    }

    /** The first render: every `useState([])` cell is empty and nothing has
        been fetched or submitted. */
    constructor (address: Option<string>)
      ensures Valid()
      ensures asks == [] && bids == [] && userAsks == [] && userBids == [] && userBalances == []
      ensures this.address == address && submitted == []
      ensures publicBooks == [] && userBooks == []
    {
      asks, bids, userAsks, userBids, userBalances := [], [], [], [], [];
      this.address := address;
      submitted := [];
      publicBooks, userBooks := [], [];
    }

    /** `fetchOrders`: await the asks, then the bids, then set both. A failure
        of either read is caught and logged, and no cell is written; when the
        asks read fails the bids are never requested. Only the two public
        cells can change. */
    method FetchOrders(asksResponse: Response<seq<Level>>, bidsResponse: Response<seq<Level>>)
      returns (requested: seq<Endpoint>)
      requires Valid()
      modifies this`asks, this`bids, this`publicBooks
      ensures Valid()
      ensures requested == if asksResponse.Failed? then [Asks] else [Asks, Bids]
      ensures if asksResponse.Received? && bidsResponse.Received?
              then asks == asksResponse.body && bids == bidsResponse.body
                   && publicBooks == old(publicBooks) + [(asks, bids)]
              else asks == old(asks) && bids == old(bids) && publicBooks == old(publicBooks)
    {
      requested := [Asks];
      if asksResponse.Failed? {
        return;
      }
      requested := requested + [Bids];
      if bidsResponse.Failed? {
        return;
      }
      asks := asksResponse.body;
      bids := bidsResponse.body;
      publicBooks := publicBooks + [(asks, bids)];
    }

    /** `fetchUserOrders`: await the account's asks, then its bids, then set
        both. It has no handler: a failed read rejects its promise before any
        cell is written. Only the two user order cells can change. */
    method FetchUserOrders(asksResponse: Response<seq<Level>>, bidsResponse: Response<seq<Level>>)
      returns (requested: seq<Endpoint>)
      requires Valid()
      modifies this`userAsks, this`userBids, this`userBooks
      ensures Valid()
      ensures requested == if asksResponse.Failed? then [UserAsks] else [UserAsks, UserBids]
      ensures if asksResponse.Received? && bidsResponse.Received?
              then userAsks == asksResponse.body && userBids == bidsResponse.body
                   && userBooks == old(userBooks) + [(userAsks, userBids)]
              else userAsks == old(userAsks) && userBids == old(userBids) && userBooks == old(userBooks)
    {
      requested := [UserAsks];
      if asksResponse.Failed? {
        return;
      }
      requested := requested + [UserBids];
      if bidsResponse.Failed? {
        return;
      }
      userAsks := asksResponse.body;
      userBids := bidsResponse.body;
      userBooks := userBooks + [(userAsks, userBids)];
    }

    /** `fetchUserBalances`: await the balances of `account` and set them; a
        failed read rejects before the cell is written. Only the balance cell
        can change. */
    method FetchUserBalances(account: string, response: Response<seq<TokenBalance>>)
      returns (requested: seq<Endpoint>)
      modifies this`userBalances
      ensures requested == [UserBalance(account)]
      ensures userBalances == if response.Received? then response.body else old(userBalances)
    {
      requested := [UserBalance(account)];
      if response.Received? {
        userBalances := response.body;
      }
    }

    /** The effect keyed on `address`: when an address is present, start
        `fetchUserOrders` and `fetchUserBalances`; they write disjoint cells,
        so the order in which they complete does not matter. Without an
        address nothing is requested and no cell changes, so the user cells
        keep what an earlier address fetched. */
    method AddressEffect(asksResponse: Response<seq<Level>>, bidsResponse: Response<seq<Level>>,
                         balancesResponse: Response<seq<TokenBalance>>)
      returns (requested: set<Endpoint>)
      requires Valid()
      modifies this`userAsks, this`userBids, this`userBooks, this`userBalances
      ensures Valid()
      ensures !IsConnected(address) ==>
        && requested == {}
        && userAsks == old(userAsks) && userBids == old(userBids)
        && userBalances == old(userBalances) && userBooks == old(userBooks)
      ensures IsConnected(address) ==>
        && requested == {UserAsks, UserBalance(address.value)} + (if asksResponse.Received? then {UserBids} else {})
        && (if asksResponse.Received? && bidsResponse.Received?
            then userAsks == asksResponse.body && userBids == bidsResponse.body
            else userAsks == old(userAsks) && userBids == old(userBids))
        && userBalances == (if balancesResponse.Received? then balancesResponse.body else old(userBalances))
    {
      requested := {};
      if IsConnected(address) {
        var orders := FetchUserOrders(asksResponse, bidsResponse);
        var balances := FetchUserBalances(address.value, balancesResponse);
        requested := (set e | e in orders) + (set e | e in balances);
      }
    }

    /** The first commit: both effects run once, the order book fetch and
        the address effect for the address reported at mount. */
    method Mount(asksResponse: Response<seq<Level>>, bidsResponse: Response<seq<Level>>,
                 userAsksResponse: Response<seq<Level>>, userBidsResponse: Response<seq<Level>>,
                 balancesResponse: Response<seq<TokenBalance>>)
      returns (requested: set<Endpoint>)
      requires Valid()
      modifies this`asks, this`bids, this`publicBooks
      modifies this`userAsks, this`userBids, this`userBooks, this`userBalances
      ensures Valid()
      ensures requested == {Asks} + (if asksResponse.Received? then {Bids} else {})
                         + (if IsConnected(address)
                            then {UserAsks, UserBalance(address.value)}
                                 + (if userAsksResponse.Received? then {UserBids} else {})
                            else {})
      ensures if asksResponse.Received? && bidsResponse.Received?
              then asks == asksResponse.body && bids == bidsResponse.body
              else asks == old(asks) && bids == old(bids)
      ensures !IsConnected(address) ==>
        && userAsks == old(userAsks) && userBids == old(userBids)
        && userBalances == old(userBalances) && userBooks == old(userBooks)
      ensures IsConnected(address) ==>
        && (if userAsksResponse.Received? && userBidsResponse.Received?
            then userAsks == userAsksResponse.body && userBids == userBidsResponse.body
            else userAsks == old(userAsks) && userBids == old(userBids))
        && userBalances == (if balancesResponse.Received? then balancesResponse.body else old(userBalances))
    {
      var orders := FetchOrders(asksResponse, bidsResponse);
      var user := AddressEffect(userAsksResponse, userBidsResponse, balancesResponse);
      requested := (set e | e in orders) + user;
    }

    /** `useAccount` reports `newAddress`. The address effect runs again only
        when the value differs from the one it last ran with. */
    method AccountChanged(newAddress: Option<string>, asksResponse: Response<seq<Level>>,
                          bidsResponse: Response<seq<Level>>, balancesResponse: Response<seq<TokenBalance>>)
      returns (requested: set<Endpoint>)
      requires Valid()
      modifies this`address, this`userAsks, this`userBids, this`userBooks, this`userBalances
      ensures Valid() && address == newAddress
      ensures newAddress == old(address) ==>
        && requested == {}
        && userAsks == old(userAsks) && userBids == old(userBids)
        && userBalances == old(userBalances) && userBooks == old(userBooks)
      ensures newAddress != old(address) && !IsConnected(newAddress) ==>
        && requested == {}
        && userAsks == old(userAsks) && userBids == old(userBids)
        && userBalances == old(userBalances) && userBooks == old(userBooks)
      ensures newAddress != old(address) && IsConnected(newAddress) ==>
        && requested == {UserAsks, UserBalance(newAddress.value)} + (if asksResponse.Received? then {UserBids} else {})
        && (if asksResponse.Received? && bidsResponse.Received?
            then userAsks == asksResponse.body && userBids == bidsResponse.body
            else userAsks == old(userAsks) && userBids == old(userBids))
        && userBalances == (if balancesResponse.Received? then balancesResponse.body else old(userBalances))
    {
      if newAddress == address {
        requested := {};
        return;
      }
      address := newAddress;
      requested := AddressEffect(asksResponse, bidsResponse, balancesResponse);
    }

    /** `addOrder`: hands one call to `write`. Nothing else changes. */
    method AddOrder()
      modifies this`submitted
      ensures submitted == old(submitted) + [AddOrderCall(address)]
    {
      submitted := submitted + [AddOrderCall(address)];
    }
  }
}
