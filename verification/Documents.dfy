/**
 The stored JSON documents (the `canonical_document` family of models.py) and the validated read of repository.py.

 An object is a map, so member order, which `json.dumps(sort_keys=True)` fixes, plays no part in equality.
 */
module Documents {
  import opened Wrappers
  import opened Money
  import opened Models

  datatype Json =
    | Null
    | Bool(truth: bool)
    | Int(number: int)
    | Str(text: string)
    | Obj(members: map<string, Json>)

  // -- writing ----------------------------------------------------------------

  function LineDocument(line: CartLine): Json {
    Obj(map["product_id" := Str(line.productId),
            "quantity" := Int(line.quantity),
            "unit_price" := Str(FormatAmount(line.unitPrice))])
  }

  function DiscountDocument(discount: Discount): Json {
    if discount.FullPrice? then Null else
    Obj(map["code" := Str(discount.code), "amount" := Str(FormatAmount(discount.amount))])
  }

  function LinesDocument(items: Lines): Json {
    Obj(map k | k in items :: LineDocument(items[k]))
  }

  function CartDocument(cart: Cart): Json {
    Obj(map["items" := LinesDocument(cart.items),
            "discount" := DiscountDocument(cart.discount),
            "subtotal" := Str(FormatAmount(cart.subtotal)),
            "total" := Str(FormatAmount(cart.total))])
  }

  function OrderDocument(order: Order): Json {
    Obj(map["created" := Bool(order.created),
            "order_id" := if order.orderId.Some? then Str(order.orderId.value) else Null])
  }

  function PreferencesDocument(preferences: Preferences): Json {
    Obj(map["delivery_note" := Str(preferences.deliveryNote), "gift_wrap" := Bool(preferences.giftWrap)])
  }

  function TargetDocument(target: TargetState): Json {
    Obj(map["cart" := CartDocument(target.cart),
            "order" := OrderDocument(target.order),
            "preferences" := PreferencesDocument(target.preferences)])
  }

  function StateDocument(state: StoreState): Json {
    Obj(map["state_version" := Int(state.version), "target_state" := TargetDocument(state.target)])
  }

  // -- reading ----------------------------------------------------------------

  /** `document[name]`: `None` stands for the `KeyError`, or for a document that is not an object. */
  function Field(document: Json, name: string): Option<Json> {
    if document.Obj? && name in document.members then Some(document.members[name]) else None
  }

  /** A model with `extra="forbid"` refuses an object with any other member. */
  predicate OnlyFields(document: Json, names: set<string>) {
    document.Obj? && document.members.Keys <= names
  }

  /** An amount arrives as an integer or as a numeral. */
  function ReadAmount(document: Json): Option<Cents> {
    match document
    case Int(n) => Some(Quantize(Decimal(n, 0)))
    case Str(s) => AmountOf(s)
    case _ => None
  }

  function AmountField(document: Json, name: string): Option<Cents> {
    match Field(document, name)
    case Some(value) => ReadAmount(value)
    case None => None
  }

  function ReadLine(document: Json): Option<CartLine> {
    match (Field(document, "product_id"), Field(document, "quantity"), AmountField(document, "unit_price"))
    case (Some(Str(productId)), Some(Int(quantity)), Some(price)) =>
      var line := CartLine(productId, quantity, price);
      if OnlyFields(document, {"product_id", "quantity", "unit_price"}) && line.Valid() then Some(line) else None
    case _ => None
  }

  function ReadLines(document: Json): Option<Lines> {
    if document.Obj? && forall k :: k in document.members ==> ReadLine(document.members[k]).Some? then
      Some(map k | k in document.members :: ReadLine(document.members[k]).value)
    else None
  }

  function ReadDiscount(document: Json): Option<Discount> {
    if document.Null? then Some(FullPrice) else
    match (Field(document, "code"), AmountField(document, "amount"))
    case (Some(Str(code)), Some(amount)) =>
      var discount := Discount(code, amount);
      if OnlyFields(document, {"code", "amount"}) && discount.Valid() then Some(discount) else None
    case _ => None
  }

  function ReadCart(document: Json): Option<Cart> {
    match (Field(document, "items"), Field(document, "discount"),
           AmountField(document, "subtotal"), AmountField(document, "total"))
    case (Some(items), Some(discount), Some(subtotal), Some(total)) =>
      (match (ReadLines(items), ReadDiscount(discount))
       case (Some(lines), Some(reduction)) => MakeCart(lines, reduction, subtotal, total)
       case _ => None)
    case _ => None
  }

  function ReadOrder(document: Json): Option<Order> {
    if !OnlyFields(document, {"created", "order_id"}) then None else
    var created := Field(document, "created");
    var orderId := Field(document, "order_id");
    if created.Some? && !created.value.Bool? then None
    else if orderId.Some? && !orderId.value.Str? && !orderId.value.Null? then None
    else
      var order := Order(created.Some? && created.value.truth,
                         if orderId.Some? && orderId.value.Str? then Some(orderId.value.text) else None);
      if order.Valid() then Some(order) else None
  }

  function ReadPreferences(document: Json): Option<Preferences> {
    if !OnlyFields(document, {"delivery_note", "gift_wrap"}) then None else
    var note := Field(document, "delivery_note");
    var wrap := Field(document, "gift_wrap");
    if (note.Some? && !note.value.Str?) || (wrap.Some? && !wrap.value.Bool?) then None else
    var preferences := Preferences(if note.Some? then note.value.text else "", wrap.Some? && wrap.value.truth);
    if preferences.Valid() then Some(preferences) else None
  }

  function ReadTarget(document: Json): Option<TargetState> {
    match (Field(document, "cart"), Field(document, "order"), Field(document, "preferences"))
    case (Some(cart), Some(order), Some(preferences)) =>
      (match (ReadCart(cart), ReadOrder(order), ReadPreferences(preferences))
       case (Some(c), Some(o), Some(p)) => Some(TargetState(c, o, p))
       case _ => None)
    case _ => None
  }

  /** `_state_from_document`: rebuild a validated state from its stored document. */
  function StateFromDocument(document: Json): Option<StoreState> {
    match (Field(document, "state_version"), Field(document, "target_state"))
    case (Some(Int(version)), Some(target)) =>
      (match ReadTarget(target)
       case Some(t) => if version >= 1 then Some(StoreState(version, t)) else None
       case None => None)
    case _ => None
  }

  // -- the round trip ---------------------------------------------------------

  lemma LineRoundTrip(line: CartLine)
    requires line.Valid()
    ensures ReadLine(LineDocument(line)) == Some(line)
  {
    AmountDocumentRoundTrip(line.unitPrice);
    LineFromParts(line, Str(FormatAmount(line.unitPrice)));
  }

  lemma LineFromParts(line: CartLine, price: Json)
    requires line.Valid() && ReadAmount(price) == Some(line.unitPrice)
    ensures ReadLine(Obj(map["product_id" := Str(line.productId), "quantity" := Int(line.quantity),
                             "unit_price" := price])) == Some(line)
  {
    LineFields(line, price);
  }

  lemma LineFields(line: CartLine, price: Json)
    ensures var document := Obj(map["product_id" := Str(line.productId), "quantity" := Int(line.quantity),
                                    "unit_price" := price]);
            && Field(document, "product_id") == Some(Str(line.productId))
            && Field(document, "quantity") == Some(Int(line.quantity))
            && Field(document, "unit_price") == Some(price)
            && OnlyFields(document, {"product_id", "quantity", "unit_price"})
  {
    assert |"product_id"| == 10 && |"unit_price"| == 10 && "product_id"[0] != "unit_price"[0];
  }

  lemma LinesRoundTrip(items: Lines)
    requires forall k :: k in items ==> items[k].Valid()
    ensures ReadLines(LinesDocument(items)) == Some(items)
  {
    forall k | k in items ensures ReadLine(LineDocument(items[k])) == Some(items[k]) {
      LineRoundTrip(items[k]);
    }
    ReadLinesOf(items, LinesDocument(items).members);
  }

  lemma ReadLinesOf(items: Lines, documents: map<string, Json>)
    requires documents.Keys == items.Keys
    requires forall k :: k in items ==> ReadLine(documents[k]) == Some(items[k])
    ensures ReadLines(Obj(documents)) == Some(items)
  {
    assert forall k :: k in documents ==> ReadLine(documents[k]).Some?;
    assert (map k | k in documents :: ReadLine(documents[k]).value) == items;
  }

  lemma AmountDocumentRoundTrip(c: Cents)
    ensures ReadAmount(Str(FormatAmount(c))) == Some(c)
  {
    AmountRoundTrip(c);
  }

  lemma DiscountRoundTrip(discount: Discount)
    requires discount.Valid()
    ensures ReadDiscount(DiscountDocument(discount)) == Some(discount)
  {
    if discount.Discount? {
      AmountDocumentRoundTrip(discount.amount);
      DiscountFromParts(discount, Str(FormatAmount(discount.amount)));
    }
  }

  lemma DiscountFromParts(discount: Discount, amount: Json)
    requires discount.Discount? && discount.Valid() && ReadAmount(amount) == Some(discount.amount)
    ensures ReadDiscount(Obj(map["code" := Str(discount.code), "amount" := amount])) == Some(discount)
  {
  }

  lemma CartFields(items: Json, discount: Json, subtotal: Json, total: Json)
    ensures var document := Obj(map["items" := items, "discount" := discount,
                                    "subtotal" := subtotal, "total" := total]);
            && Field(document, "items") == Some(items)
            && Field(document, "discount") == Some(discount)
            && Field(document, "subtotal") == Some(subtotal)
            && Field(document, "total") == Some(total)
  {
    assert "items"[0] != "total"[0];
  }

  lemma CartRoundTrip(cart: Cart)
    requires cart.Valid()
    ensures ReadCart(CartDocument(cart)) == Some(cart)
  {
    var subtotal, total := Str(FormatAmount(cart.subtotal)), Str(FormatAmount(cart.total));
    LinesRoundTrip(cart.items);
    DiscountRoundTrip(cart.discount);
    AmountDocumentRoundTrip(cart.subtotal);
    AmountDocumentRoundTrip(cart.total);
    CartFields(LinesDocument(cart.items), DiscountDocument(cart.discount), subtotal, total);
    CartFromParts(cart, LinesDocument(cart.items), DiscountDocument(cart.discount), subtotal, total,
                  CartDocument(cart));
  }

  lemma CartFromParts(cart: Cart, items: Json, discount: Json, subtotal: Json, total: Json, document: Json)
    requires cart.Valid()
    requires Field(document, "items") == Some(items) && ReadLines(items) == Some(cart.items)
    requires Field(document, "discount") == Some(discount) && ReadDiscount(discount) == Some(cart.discount)
    requires Field(document, "subtotal") == Some(subtotal) && ReadAmount(subtotal) == Some(cart.subtotal)
    requires Field(document, "total") == Some(total) && ReadAmount(total) == Some(cart.total)
    ensures ReadCart(document) == Some(cart)
  {
  }

  lemma TargetFromParts(target: TargetState, cart: Json, order: Json, preferences: Json)
    requires ReadCart(cart) == Some(target.cart)
    requires ReadOrder(order) == Some(target.order)
    requires ReadPreferences(preferences) == Some(target.preferences)
    ensures ReadTarget(Obj(map["cart" := cart, "order" := order, "preferences" := preferences])) == Some(target)
  {
    var document := Obj(map["cart" := cart, "order" := order, "preferences" := preferences]);
    assert Field(document, "cart") == Some(cart);
    assert Field(document, "order") == Some(order);
    assert Field(document, "preferences") == Some(preferences);
  }

  lemma OrderRoundTrip(order: Order)
    requires order.Valid()
    ensures ReadOrder(OrderDocument(order)) == Some(order)
  {
  }

  lemma PreferencesRoundTrip(preferences: Preferences)
    requires preferences.Valid()
    ensures ReadPreferences(PreferencesDocument(preferences)) == Some(preferences)
  {
  }

  lemma TargetRoundTrip(target: TargetState)
    requires target.Valid()
    ensures ReadTarget(TargetDocument(target)) == Some(target)
  {
    CartRoundTrip(target.cart);
    OrderRoundTrip(target.order);
    PreferencesRoundTrip(target.preferences);
    TargetFromParts(target, CartDocument(target.cart), OrderDocument(target.order),
                    PreferencesDocument(target.preferences));
  }

  /** Reading back the stored document of any constructible state gives that state. */
  lemma StateRoundTrip(state: StoreState)
    requires state.Valid()
    ensures StateFromDocument(StateDocument(state)) == Some(state)
  {
    TargetRoundTrip(state.target);
    var document := StateDocument(state);
    assert Field(document, "state_version") == Some(Int(state.version));
    assert Field(document, "target_state") == Some(TargetDocument(state.target));
  }

  /** Document equality is state equality: the no-op test compares exactly the target states. */
  lemma TargetDocumentsDecide(a: TargetState, b: TargetState)
    requires a.Valid() && b.Valid()
    ensures TargetDocument(a) == TargetDocument(b) <==> a == b
  {
    TargetRoundTrip(a);
    TargetRoundTrip(b);
  }

  /** The cart document, whose hash binds a confirmation, determines the cart. */
  lemma CartDocumentsDecide(a: Cart, b: Cart)
    requires a.Valid() && b.Valid()
    ensures CartDocument(a) == CartDocument(b) <==> a == b
  {
    CartRoundTrip(a);
    CartRoundTrip(b);
  }

  /** A document that decodes gives a state that passes every validator. */
  lemma StateIsValidated(document: Json)
    requires StateFromDocument(document).Some?
    ensures var state := StateFromDocument(document).value;
            && state.Valid() && state.version >= 1 && state.target.cart.Valid()
            && (state.target.order.created <==> state.target.order.orderId.Some?)
            && |state.target.preferences.deliveryNote| <= 200
  {
  }

  /** A line, a discount, an order or preferences with a member the model does not know is refused. */
  lemma UnknownMembersAreRefused(document: Json)
    requires document.Obj?
    ensures ReadLine(document).Some? ==> document.members.Keys == {"product_id", "quantity", "unit_price"}
    ensures ReadDiscount(document).Some? ==> document.members.Keys == {"code", "amount"}
    ensures ReadOrder(document).Some? ==> document.members.Keys <= {"created", "order_id"}
    ensures ReadPreferences(document).Some? ==> document.members.Keys <= {"delivery_note", "gift_wrap"}
  {
  }

  /** An integer amount counts whole units. */
  lemma IntegerAmounts(n: int)
    ensures ReadAmount(Int(n)) == Some(100 * n)
  {
    QuantizeIsNearest(Decimal(n, 0), 100 * n);
    assert Pow10(2) == 100 by { assert Pow10(1) == 10; }
  }

  // -- where a document holds what --------------------------------------------

  function At(document: Json, path: seq<string>): Option<Json> {
    if path == [] then Some(document)
    else
      match Field(document, path[0])
      case None => None
      case Some(inner) => At(inner, path[1..])
  }

  lemma AtOne(document: Json, name: string)
    ensures At(document, [name]) == Field(document, name)
  {
  }

  lemma AtTwo(document: Json, first: string, second: string)
    ensures At(document, [first, second]) == match Field(document, first)
                                             case None => None
                                             case Some(inner) => Field(inner, second)
  {
    assert [first, second][1..] == [second];
    if Field(document, first).Some? {
      AtOne(Field(document, first).value, second);
    }
  }

  /** The paths a stored target document is read by from outside. */
  lemma TargetPaths(target: TargetState)
    ensures var document := TargetDocument(target);
            && At(document, ["cart", "subtotal"]) == Some(Str(FormatAmount(target.cart.subtotal)))
            && At(document, ["cart", "total"]) == Some(Str(FormatAmount(target.cart.total)))
            && At(document, ["cart", "items"]) == Some(LinesDocument(target.cart.items))
            && At(document, ["cart", "discount"]) == Some(DiscountDocument(target.cart.discount))
            && At(document, ["order", "created"]) == Some(Bool(target.order.created))
            && At(document, ["order", "order_id"])
               == Some(if target.order.orderId.Some? then Str(target.order.orderId.value) else Null)
            && At(document, ["preferences", "delivery_note"]) == Some(Str(target.preferences.deliveryNote))
            && At(document, ["preferences", "gift_wrap"]) == Some(Bool(target.preferences.giftWrap))
  {
    var document := TargetDocument(target);
    AtTwo(document, "cart", "subtotal");
    AtTwo(document, "cart", "total");
    AtTwo(document, "cart", "items");
    AtTwo(document, "cart", "discount");
    AtTwo(document, "order", "created");
    AtTwo(document, "order", "order_id");
    AtTwo(document, "preferences", "delivery_note");
    AtTwo(document, "preferences", "gift_wrap");
  }

  /** And those of a line and of a discount. */
  lemma LinePaths(line: CartLine, discount: Discount)
    ensures var document := LineDocument(line);
            && At(document, ["product_id"]) == Some(Str(line.productId))
            && At(document, ["quantity"]) == Some(Int(line.quantity))
            && At(document, ["unit_price"]) == Some(Str(FormatAmount(line.unitPrice)))
    ensures discount.Discount? ==>
              && At(DiscountDocument(discount), ["code"]) == Some(Str(discount.code))
              && At(DiscountDocument(discount), ["amount"]) == Some(Str(FormatAmount(discount.amount)))
  {
    AtOne(LineDocument(line), "product_id");
    AtOne(LineDocument(line), "quantity");
    AtOne(LineDocument(line), "unit_price");
    AtOne(DiscountDocument(discount), "code");
    AtOne(DiscountDocument(discount), "amount");
  }
}
