/** The rollup action payloads of the exchange front end: the two encoders
    that turn an add-order or cancel-order intent into the bytes given to the
    rollup's `addInput`, and the decoder a consumer of those bytes applies.

    Each encoder builds a fixed object literal, serialises it with
    `JSON.stringify` and converts the text to UTF-8, in that order. */
module ActionPayload {
  import opened Options
  import opened Json
  import Utf8

  /** The two intents a payload carries. */
  datatype Action =
    | AddOrder(side: string, quantity: SafeInteger, price: SafeInteger)
    | CancelOrder(orderId: string)

  /** The object literal of `addOrderTransactionData`: four keys, in this order. */
  function AddOrderObject(side: string, quantity: SafeInteger, price: SafeInteger): seq<Member> {
    [("action", Str("ADD_ORDER")), ("side", Str(side)), ("quantity", Num(quantity)), ("price", Num(price))]
  }

  /** The object literal of `cancelOrderTransactionData`: two keys, in this order. */
  function CancelOrderObject(orderId: string): seq<Member> {
    [("action", Str("CANCEL_ORDER")), ("order_id", Str(orderId))]
  }

  /** `addOrderTransactionData(side, quantity, price)`. */
  function AddOrderTransactionData(side: string, quantity: SafeInteger, price: SafeInteger): Utf8.Bytes {
    Utf8.Encode(Stringify(AddOrderObject(side, quantity, price)))
  }

  /** `cancelOrderTransactionData(orderId)`. */
  function CancelOrderTransactionData(orderId: string): Utf8.Bytes {
    Utf8.Encode(Stringify(CancelOrderObject(orderId)))
  }

  /** The schema a consumer expects: exactly the members of one of the two
      object literals, in their order. Anything else is refused. */
  function ActionOfObject(ms: seq<Member>): (r: Option<Action>)
    ensures r.Some? && r.value.AddOrder? ==> ms == AddOrderObject(r.value.side, r.value.quantity, r.value.price)
    ensures r.Some? && r.value.CancelOrder? ==> ms == CancelOrderObject(r.value.orderId)
  {
    if |ms| == 4 && ms[0] == ("action", Str("ADD_ORDER"))
       && ms[1].0 == "side" && ms[1].1.Str?
       && ms[2].0 == "quantity" && ms[2].1.Num?
       && ms[3].0 == "price" && ms[3].1.Num?
    then
      Some(AddOrder(ms[1].1.s, ms[2].1.n, ms[3].1.n))
    else if |ms| == 2 && ms[0] == ("action", Str("CANCEL_ORDER"))
       && ms[1].0 == "order_id" && ms[1].1.Str?
    then
      Some(CancelOrder(ms[1].1.s))
    else
      None
  }

  /** What the consumer of `addInput` does with a payload: decode UTF-8, read
      the JSON object, then match it against the schema. */
  function DecodeAction(payload: Utf8.Bytes): Option<Action> {
    var text :- Utf8.Decode(payload);
    var ms :- ParseObject(text);
    ActionOfObject(ms)
  }

  // ---------------------------------------------------------------------------
  // Round trips and injectivity
  // ---------------------------------------------------------------------------

  /** Round trip: the add-order payload is well-formed UTF-8 and decodes to
      the side, quantity and price it was built from. */
  lemma AddOrderRoundTrip(side: string, quantity: SafeInteger, price: SafeInteger)
    ensures Utf8.WellFormed(AddOrderTransactionData(side, quantity, price))
    ensures DecodeAction(AddOrderTransactionData(side, quantity, price)) == Some(AddOrder(side, quantity, price))
  {
    var ms := AddOrderObject(side, quantity, price);
    Utf8.DecodeEncode(Stringify(ms));
    StringifyRoundTrip(ms);
  }

  /** Round trip: the cancel-order payload is well-formed UTF-8 and decodes to
      the order id it was built from. */
  lemma CancelOrderRoundTrip(orderId: string)
    ensures Utf8.WellFormed(CancelOrderTransactionData(orderId))
    ensures DecodeAction(CancelOrderTransactionData(orderId)) == Some(CancelOrder(orderId))
  {
    var ms := CancelOrderObject(orderId);
    Utf8.DecodeEncode(Stringify(ms));
    StringifyRoundTrip(ms);
  }

  /** Distinct (side, quantity, price) triples give distinct add-order payloads. */
  lemma AddOrderInjective(side: string, quantity: SafeInteger, price: SafeInteger,
                          side': string, quantity': SafeInteger, price': SafeInteger)
    requires AddOrderTransactionData(side, quantity, price) == AddOrderTransactionData(side', quantity', price')
    ensures side == side' && quantity == quantity' && price == price'
  {
    AddOrderRoundTrip(side, quantity, price);
    AddOrderRoundTrip(side', quantity', price');
  }

  /** Distinct order ids give distinct cancel-order payloads. */
  lemma CancelOrderInjective(orderId: string, orderId': string)
    requires CancelOrderTransactionData(orderId) == CancelOrderTransactionData(orderId')
    ensures orderId == orderId'
  {
    CancelOrderRoundTrip(orderId);
    CancelOrderRoundTrip(orderId');
  }

  /** No add-order payload is also a cancel-order payload: the action values differ. */
  lemma AddOrderIsNotCancelOrder(side: string, quantity: SafeInteger, price: SafeInteger, orderId: string)
    ensures AddOrderTransactionData(side, quantity, price) != CancelOrderTransactionData(orderId)
  {
    AddOrderRoundTrip(side, quantity, price);
    CancelOrderRoundTrip(orderId);
  }

  // ---------------------------------------------------------------------------
  // Length for ASCII input
  // ---------------------------------------------------------------------------

  lemma AppendAscii(s: string, t: string)
    requires Utf8.IsAscii(s) && Utf8.IsAscii(t)
    ensures Utf8.IsAscii(s + t)
  {
    forall i | 0 <= i < |s + t| ensures (s + t)[i] as int < 0x80 {
      if i < |s| { assert (s + t)[i] == s[i]; } else { assert (s + t)[i] == t[i - |s|]; }
    }
  }

  lemma {:induction false} EscapeBodyAscii(s: string)
    requires Utf8.IsAscii(s)
    ensures Utf8.IsAscii(EscapeBody(s))
  {
    if s != [] {
      assert Utf8.IsAscii(s[1..]) by {
        forall i | 0 <= i < |s[1..]| ensures s[1..][i] as int < 0x80 {
          assert s[1..][i] == s[i + 1];
        }
      }
      EscapeBodyAscii(s[1..]);
      AppendAscii(EscapeChar(s[0]), EscapeBody(s[1..]));
    }
  }

  lemma QuoteAscii(s: string)
    requires Utf8.IsAscii(s)
    ensures Utf8.IsAscii(Quote(s))
  {
    EscapeBodyAscii(s);
    AppendAscii("\"", EscapeBody(s));
    AppendAscii("\"" + EscapeBody(s), "\"");
  }

  lemma IntegerTextAscii(n: SafeInteger)
    ensures Utf8.IsAscii(IntegerText(n))
  {
    var m: nat := if n < 0 then -n else n;
    NatTextDigits(m);
    if n < 0 {
      AppendAscii("-", NatText(m));
    }
  }

  /** Keys and string values all ASCII. */
  predicate IsAsciiObject(ms: seq<Member>) {
    forall i :: 0 <= i < |ms| ==> Utf8.IsAscii(ms[i].0) && (ms[i].1.Str? ==> Utf8.IsAscii(ms[i].1.s))
  }

  lemma MemberTextAscii(m: Member)
    requires Utf8.IsAscii(m.0) && (m.1.Str? ==> Utf8.IsAscii(m.1.s))
    ensures Utf8.IsAscii(MemberText(m))
  {
    QuoteAscii(m.0);
    AppendAscii(Quote(m.0), ":");
    match m.1 {
      case Str(s) => QuoteAscii(s);
      case Num(n) => IntegerTextAscii(n);
    }
    AppendAscii(Quote(m.0) + ":", PrimitiveText(m.1));
  }

  lemma {:induction false} MembersTextAscii(ms: seq<Member>)
    requires IsAsciiObject(ms)
    ensures Utf8.IsAscii(MembersText(ms))
  {
    if ms != [] {
      MemberTextAscii(ms[0]);
      if |ms| > 1 {
        assert IsAsciiObject(ms[1..]) by {
          forall i | 0 <= i < |ms[1..]|
            ensures Utf8.IsAscii(ms[1..][i].0) && (ms[1..][i].1.Str? ==> Utf8.IsAscii(ms[1..][i].1.s))
          {
            assert ms[1..][i] == ms[i + 1];
          }
        }
        MembersTextAscii(ms[1..]);
        AppendAscii(MemberText(ms[0]), ",");
        AppendAscii(MemberText(ms[0]) + ",", MembersText(ms[1..]));
      }
    }
  }

  lemma StringifyAscii(ms: seq<Member>)
    requires IsAsciiObject(ms)
    ensures Utf8.IsAscii(Stringify(ms))
  {
    MembersTextAscii(ms);
    AppendAscii("{", MembersText(ms));
    AppendAscii("{" + MembersText(ms), "}");
  }

  /** With an ASCII side, the add-order payload has one byte per character of
      its JSON text. */
  lemma AddOrderAsciiLength(side: string, quantity: SafeInteger, price: SafeInteger)
    requires Utf8.IsAscii(side)
    ensures |AddOrderTransactionData(side, quantity, price)| == |Stringify(AddOrderObject(side, quantity, price))|
  {
    var ms := AddOrderObject(side, quantity, price);
    assert IsAsciiObject(ms);
    StringifyAscii(ms);
    Utf8.EncodeAscii(Stringify(ms));
  }

  /** With an ASCII order id, the cancel-order payload has one byte per
      character of its JSON text. */
  lemma CancelOrderAsciiLength(orderId: string)
    requires Utf8.IsAscii(orderId)
    ensures |CancelOrderTransactionData(orderId)| == |Stringify(CancelOrderObject(orderId))|
  {
    var ms := CancelOrderObject(orderId);
    assert IsAsciiObject(ms);
    StringifyAscii(ms);
    Utf8.EncodeAscii(Stringify(ms));
  }
}
