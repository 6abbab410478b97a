# Exchange front end: action payloads and component state

This project models the core of the exchange front end's `Exchange`
component (`src/Exchange.jsx`). It proves properties of the model in Dafny.

* **Action payloads.** `addOrderTransactionData(side, quantity, price)` and
  `cancelOrderTransactionData(orderId)` build a fixed object literal. They
  serialise it with `JSON.stringify` and convert the text to UTF-8 with
  `ethers.utils.toUtf8Bytes`. The result is the payload given to the rollup's
  `addInput`.
  * `Utf8.dfy` models UTF-8 as defined by RFC 3629.
  * `Json.dfy` models `JSON.stringify` (ECMA-262, section 25.5.2) on flat
    objects of string and safe-integer members.
  * `ActionPayload.dfy` holds the two encoders.
  * `PayloadText.dfy` writes out the JSON text each encoder produces.
  * Each encoder is partnered with the decoder a consumer of `addInput`
    applies: UTF-8 decoding, then a strict JSON object parser (RFC 8259), then
    the action schema. The round-trip lemmas tie the encoders to that decoder.
  * The parser accepts no whitespace and requires the members in the order
    written. So the round trip also shows what `JSON.stringify` guarantees
    here: no incidental whitespace, and the keys in literal order.
  * The encoders are functions, so equal inputs give byte-identical payloads.
    Injectivity lemmas give the converse.
* **Component state** (`Exchange.dfy`). The class `ExchangeState` has the
  five `useState` cells (`asks`, `bids`, `userAsks`, `userBids`,
  `userBalances`), the address `useAccount` reports, and the calls handed to
  wagmi's `write`.
  * Each awaited `fetch(...).json()` is a `Response` parameter: a parsed body,
    or a rejection.
  * Each method returns the endpoints it requested.
  * The promise that asks and bids are replaced together, or not at all, is
    stated by the `ensures` of `FetchOrders` and `FetchUserOrders`.
  * The ghost histories `publicBooks` and `userBooks` record every pair of
    lists a completed fetch wrote. The invariant `Valid` says that the
    visible pair is the last pair written, or still empty. Every method
    keeps it, but no other contract depends on it.
  * `AddOrder` appends the one call `addOrder` makes. The lemma
    `AddOrderCallSubmitsFixedBuy` states what that call carries: the bound
    contract, `addInput`, one payload that decodes to a buy of 1 at 1, value
    0, and the connected address as sender.

Three facts about the code shape the model:
* The code has no polling, no debouncing and no request sequencing. Each
  effect runs once per trigger.
* When the address becomes falsy, the user cells keep their last values.
  They are not cleared.
* `fetchUserBalances` writes its cell whatever the address is by the time
  the response arrives. `FetchUserBalances` takes the account it was started
  for as a parameter and writes unconditionally, just as the code does.

## Model

| member | source | states |
|---|---|---|
| ActionPayload.AddOrderRoundTrip | src/Exchange.jsx:9-18 | the add-order payload is well-formed UTF-8 and decodes back to exactly the side, quantity and price it was built from |
| ActionPayload.CancelOrderRoundTrip | src/Exchange.jsx:20-27 | the cancel-order payload is well-formed UTF-8 and decodes back to exactly the order id it was built from |
| ActionPayload.AddOrderInjective | src/Exchange.jsx:9-18 | two add-order payloads are byte-equal only when side, quantity and price are all equal |
| ActionPayload.CancelOrderInjective | src/Exchange.jsx:20-27 | two cancel-order payloads are byte-equal only when the order ids are equal |
| ActionPayload.AddOrderIsNotCancelOrder | src/Exchange.jsx:9-27 | no add-order payload equals any cancel-order payload, because the "action" values differ |
| ActionPayload.AddOrderAsciiLength | src/Exchange.jsx:17 | with an ASCII side, the add-order payload has exactly one byte per character of its JSON text |
| ActionPayload.CancelOrderAsciiLength | src/Exchange.jsx:26 | with an ASCII order id, the cancel-order payload has exactly one byte per character of its JSON text |
| PayloadText.AddOrderText | src/Exchange.jsx:9-18 | the JSON text inside `addOrderTransactionData` is exactly `{"action":"ADD_ORDER","side":` then the quoted, escaped side, then `,"quantity":` and the quantity's numeral, then `,"price":` and the price's numeral, then `}` |
| PayloadText.CancelOrderText | src/Exchange.jsx:20-27 | the JSON text inside `cancelOrderTransactionData` is exactly `{"action":"CANCEL_ORDER","order_id":` then the quoted, escaped order id, then `}` |
| PayloadText.FixedBuyText | src/Exchange.jsx:44-50 | the payload `addOrder` sends is the UTF-8 encoding of `{"action":"ADD_ORDER","side":"BUY","quantity":1,"price":1}` |
| Json.StringifyRoundTrip | src/Exchange.jsx:10-15 | parsing the serialised object yields its members, keys and values, in insertion order, with no whitespace anywhere outside strings |
| Json.EscapeChar | src/Exchange.jsx:12 | a string character's escape is never empty and never contains a control character; ordinary characters stand for themselves; quotation mark, reverse solidus and controls get a backslash escape; ASCII stays ASCII |
| Json.ParseStringQuote | src/Exchange.jsx:12 | reading a quoted, escaped string back recovers the string and leaves what follows it |
| Json.ParseIntegerText | src/Exchange.jsx:13-14 | reading an integer's numeral back recovers the integer, provided no digit follows the numeral |
| Utf8.EncodeScalar | src/Exchange.jsx:17 | one scalar value takes 1 to 4 octets, as RFC 3629 sets out; only ASCII takes one octet; a multi-octet lead octet lies in C2..F4; the remaining octets are continuation octets |
| Utf8.DecodeEncode | src/Exchange.jsx:17 | decoding the UTF-8 encoding of any text gives the text back, so every encoding is well-formed |
| Utf8.EncodeDecode | src/Exchange.jsx:17 | every byte sequence the decoder accepts is the encoding of what it decodes to (no overlong or surrogate forms) |
| Utf8.EncodeInjective | src/Exchange.jsx:17 | distinct texts have distinct encodings |
| Utf8.EncodeAscii | src/Exchange.jsx:17 | ASCII text encodes to one octet per character, equal to its code |
| Exchange.AddOrderCallSubmitsFixedBuy | src/Exchange.jsx:38-50 | `addOrder` calls `addInput` on the bound rollup contract. It sends one payload that decodes to a buy of quantity 1 at price 1, with value 0, from the connected address |
| Exchange.ExchangeState.constructor | src/Exchange.jsx:30-36 | every state cell starts empty, nothing is submitted, and the invariant holds |
| Exchange.ExchangeState.FetchOrders | src/Exchange.jsx:52-70 | asks are requested first; bids only if the asks arrived. Both cells are replaced together when both arrive. Otherwise the error is caught and neither cell changes. No other cell changes, and the invariant is kept |
| Exchange.ExchangeState.FetchUserOrders | src/Exchange.jsx:79-93 | the user's asks, then bids, are requested. Both user cells are replaced together only when both arrive. A rejection leaves them unchanged. No other cell changes |
| Exchange.ExchangeState.FetchUserBalances | src/Exchange.jsx:95-103 | the balance endpoint of the given account is requested. The balance cell takes the body when it arrives and is otherwise unchanged. No other cell changes |
| Exchange.ExchangeState.AddressEffect | src/Exchange.jsx:105-110 | with a truthy address it requests exactly the user asks, the address's balances, and the user bids when the asks arrived, and updates the user cells as the two fetches do. With an absent or empty address it requests nothing and changes nothing |
| Exchange.ExchangeState.Mount | src/Exchange.jsx:52-110 | the first commit runs both effects. It requests exactly the asks, the bids if the asks arrived, and, only with a truthy address, the user asks, that address's balances and the user bids if the user asks arrived. The public cells change as `fetchOrders` changes them. With a falsy address the user cells do not change; with a truthy one they change as `fetchUserOrders` and `fetchUserBalances` change them |
| Exchange.ExchangeState.AccountChanged | src/Exchange.jsx:105-110 | the effect reruns only when the address differs from the previous one. An unchanged address, or a changed one that is absent or empty, requests nothing and leaves every user cell as it was. A changed truthy address requests exactly its user asks, its balances and, if the asks arrived, its user bids, and the user cells change as the two fetches change them |
| Exchange.ExchangeState.AddOrder | src/Exchange.jsx:44-50 | exactly one call, `AddOrderCall(address)`, is appended to what `write` received, and nothing else changes |

## Left out

- Rendering (the JSX), the wagmi and ConnectKit providers, and the `Logo` component: presentation only. The `add order` button's handler is `() => addOrder`, which returns the function without calling it. The model keeps `AddOrder` as the operation the handler names.
- React's development-only strict mode: `src/index.tsx` wraps the app in `React.StrictMode`, which in a development build runs both effects twice at mount, so two `fetchOrders` calls overlap. The model describes the production behaviour, where each effect runs once per trigger.
- HTTP, promises and the event loop: each awaited response is a parameter, and each effect runs to completion as one method call. The model does not capture interleavings in which a late response lands after a later effect. The hazard is visible, though, in `FetchUserBalances` writing for whatever account it was given.
- The account in the user-order URLs is a fixed string in the code, not the connected address. The model's `UserAsks` and `UserBids` endpoints carry no account for that reason.
- `console.log` calls, the request headers and the `isConnecting`, `isDisconnected`, `data`, `isLoading`, `isSuccess` values: they do not affect state.
- Json.Stringify: only flat objects whose values are strings or safe integers are modelled, since the encoders only build such objects when called with string and integer arguments. Fractional, non-finite and unsafe numbers and other JavaScript values are not modelled.
- Lone surrogates: `JSON.stringify` escapes a lone surrogate as ASCII `\udxxx`, so the encoders do produce a payload for such a side or order id. The model cannot express that input, because a Dafny `char` is a Unicode scalar value.
- ActionPayload.DecodeAction: this is the consumer's reading of a payload, not part of the front end. It accepts some non-canonical spellings (such as `\/`, upper-case hex escapes and `-0`), so only the encode-then-decode direction is proved.
- The shape of the order and balance rows is whatever the read service returns. `Level` and `TokenBalance` fix a shape only to give the cells a type; no property depends on it.
