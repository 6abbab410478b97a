/** The wire text of the two action payloads, written out: what a consumer
    of `addInput` sees once the bytes are decoded from UTF-8. */
module PayloadText {
  import opened Json
  import opened ActionPayload
  import Utf8

  /** The JSON text of an add-order payload: the four keys in literal order,
      no whitespace, the side quoted and escaped, the integers as numerals. */
  lemma AddOrderText(side: string, quantity: SafeInteger, price: SafeInteger)
    ensures Stringify(AddOrderObject(side, quantity, price))
         == "{\"action\":\"ADD_ORDER\"" + ",\"side\":" + Quote(side)
            + ",\"quantity\":" + IntegerText(quantity) + ",\"price\":" + IntegerText(price) + "}"
  {
    var m0, m1, m2, m3 := ("action", Str("ADD_ORDER")), ("side", Str(side)),
                          ("quantity", Num(quantity)), ("price", Num(price));
    ObjectOfFour(m0, m1, m2, m3);
    ActionMember("ADD_ORDER");
    CommaKeyMember("side", m1.1);
    CommaKeyMember("quantity", m2.1);
    CommaKeyMember("price", m3.1);
    JoinAddOrder(MemberText(m0), MemberText(m1), MemberText(m2), MemberText(m3),
                 Quote(side), IntegerText(quantity), IntegerText(price));
  }

  /** The JSON text of a cancel-order payload: the two keys in literal order,
      no whitespace, the order id quoted and escaped. */
  lemma CancelOrderText(orderId: string)
    ensures Stringify(CancelOrderObject(orderId))
         == "{\"action\":\"CANCEL_ORDER\"" + ",\"order_id\":" + Quote(orderId) + "}"
  {
    var m0, m1 := ("action", Str("CANCEL_ORDER")), ("order_id", Str(orderId));
    ObjectOfTwo(m0, m1);
    ActionMember("CANCEL_ORDER");
    CommaKeyMember("order_id", m1.1);
    JoinCancelOrder(MemberText(m0), MemberText(m1), Quote(orderId));
  }

  /** The text of the order the front end's `addOrder` places: a buy of
      quantity 1 at price 1. */
  lemma FixedBuyText()
    ensures Stringify(AddOrderObject("BUY", 1, 1))
         == "{\"action\":\"ADD_ORDER\"" + ",\"side\":" + "\"BUY\"" + ",\"quantity\":" + "1" + ",\"price\":" + "1" + "}"
    ensures AddOrderTransactionData("BUY", 1, 1)
         == Utf8.Encode("{\"action\":\"ADD_ORDER\"" + ",\"side\":" + "\"BUY\"" + ",\"quantity\":" + "1" + ",\"price\":" + "1" + "}")
  {
    AddOrderText("BUY", 1, 1);
    BuyAndOne("BUY", 1);
  }

  lemma BuyAndOne(side: string, n: SafeInteger)
    requires side == "BUY" && n == 1
    ensures Quote(side) == "\"BUY\"" && IntegerText(n) == "1"
  {
    PlainWords();
    EscapeBodyPlain(side);
  }

  /** The opening brace and the "action" member of either object. */
  lemma ActionMember(tag: string)
    requires tag == "ADD_ORDER" || tag == "CANCEL_ORDER"
    ensures tag == "ADD_ORDER" ==> "{" + MemberText(("action", Str(tag))) == "{\"action\":\"ADD_ORDER\""
    ensures tag == "CANCEL_ORDER" ==> "{" + MemberText(("action", Str(tag))) == "{\"action\":\"CANCEL_ORDER\""
  {
    PlainWords();
    PlainMemberText("action", Str(tag));
    EscapeBodyPlain(tag);
    ActionTagText(tag);
  }

  lemma ActionTagText(tag: string)
    requires tag == "ADD_ORDER" || tag == "CANCEL_ORDER"
    ensures tag == "ADD_ORDER" ==> "{" + ("\"" + "action" + "\":" + ("\"" + tag + "\"")) == "{\"action\":\"ADD_ORDER\""
    ensures tag == "CANCEL_ORDER" ==> "{" + ("\"" + "action" + "\":" + ("\"" + tag + "\"")) == "{\"action\":\"CANCEL_ORDER\""
  {
  }

  /** A separating comma and one of the other members. */
  lemma CommaKeyMember(key: string, v: Primitive)
    requires key == "side" || key == "quantity" || key == "price" || key == "order_id"
    ensures key == "side" ==> "," + MemberText((key, v)) == ",\"side\":" + PrimitiveText(v)
    ensures key == "quantity" ==> "," + MemberText((key, v)) == ",\"quantity\":" + PrimitiveText(v)
    ensures key == "price" ==> "," + MemberText((key, v)) == ",\"price\":" + PrimitiveText(v)
    ensures key == "order_id" ==> "," + MemberText((key, v)) == ",\"order_id\":" + PrimitiveText(v)
  {
    PlainWords();
    CommaPlainMemberText(key, v);
    KeyText(key);
  }

  lemma KeyText(key: string)
    requires key == "side" || key == "quantity" || key == "price" || key == "order_id"
    ensures key == "side" ==> "," + "\"" + key + "\":" == ",\"side\":"
    ensures key == "quantity" ==> "," + "\"" + key + "\":" == ",\"quantity\":"
    ensures key == "price" ==> "," + "\"" + key + "\":" == ",\"price\":"
    ensures key == "order_id" ==> "," + "\"" + key + "\":" == ",\"order_id\":"
  {
  }

  lemma JoinAddOrder(a: string, b: string, c: string, d: string, s: string, q: string, p: string)
    requires "{" + a == "{\"action\":\"ADD_ORDER\""
    requires "," + b == ",\"side\":" + s
    requires "," + c == ",\"quantity\":" + q
    requires "," + d == ",\"price\":" + p
    ensures "{" + a + ("," + b) + ("," + c) + ("," + d) + "}"
         == "{\"action\":\"ADD_ORDER\"" + ",\"side\":" + s + ",\"quantity\":" + q + ",\"price\":" + p + "}"
  {
  }

  lemma JoinCancelOrder(a: string, b: string, s: string)
    requires "{" + a == "{\"action\":\"CANCEL_ORDER\""
    requires "," + b == ",\"order_id\":" + s
    ensures "{" + a + ("," + b) + "}" == "{\"action\":\"CANCEL_ORDER\"" + ",\"order_id\":" + s + "}"
  {
  }

  /** The keys and fixed values of the two objects need no escaping. */
  lemma PlainWords()
    ensures IsPlain("action") && IsPlain("side") && IsPlain("quantity") && IsPlain("price") && IsPlain("order_id")
    ensures IsPlain("ADD_ORDER") && IsPlain("CANCEL_ORDER") && IsPlain("BUY")
  {
  }
}
