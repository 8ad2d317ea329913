/**
 Canonical store state (models.py): frozen records that refuse to exist in an inconsistent shape.

 A validator that raises is a function to `Option`; `None` stands for the exception.
 */
module Models {
  import opened Wrappers
  import opened Money
  import opened Catalog

  datatype CartLine = CartLine(productId: string, quantity: int, unitPrice: Cents)
  {
    function LineTotal(): Cents {
      unitPrice * quantity
    }

    predicate Valid() {
      1 <= |productId| <= 64 && 1 <= quantity <= MAX_LINE_QUANTITY
    }
  }

  /** Either no discount, or a code with the cents it is worth on this cart. */
  datatype Discount = FullPrice | Discount(code: string, amount: Cents)
  {
    predicate Valid() {
      Discount? ==> 1 <= |code| <= 32
    }
  }

  type Lines = map<string, CartLine>

  function LineTotalAt(items: Lines, lineKey: string): Cents {
    if lineKey in items then items[lineKey].LineTotal() else 0
  }

  /** The sum of the line totals. A line under any other key is refused by `Cart.Valid`, so it never counts. */
  function Subtotal(items: Lines): Cents {
    LineTotalAt(items, MUG.lineKey) + LineTotalAt(items, NOTEBOOK.lineKey) + LineTotalAt(items, TOTE.lineKey)
  }

  function Reduction(discount: Discount): Cents {
    if discount.Discount? then discount.amount else 0
  }

  predicate SeededLine(lineKey: string, line: CartLine) {
    && line.Valid()
    && ProductByLineKey(lineKey).Some?
    && ProductByLineKey(lineKey).value.productId == line.productId
  }

  datatype Cart = Cart(items: Lines, discount: Discount, subtotal: Cents, total: Cents)
  {
    /** The model validator. It does not look at prices, nor at which percentage the discount is. */
    predicate Valid() {
      && (forall k :: k in items ==> SeededLine(k, items[k]))
      && discount.Valid()
      && subtotal == Subtotal(items)
      && total == subtotal - Reduction(discount)
    }

    function Code(): Option<string> {
      if discount.Discount? then Some(discount.code) else None
    }
  }

  /** Constructing a `Cart`: the validator accepts it, or raises. */
  function MakeCart(items: Lines, discount: Discount, subtotal: Cents, total: Cents): Option<Cart> {
    var cart := Cart(items, discount, subtotal, total);
    if cart.Valid() then Some(cart) else None
  }

  /** `build_cart`: `None` for an unknown code (`KeyError`) or a rejected cart (`ValidationError`). */
  function BuildCart(items: Lines, code: Option<string>): Option<Cart> {
    var subtotal := Subtotal(items);
    if code.None? then
      MakeCart(items, FullPrice, subtotal, subtotal)
    else if DiscountPercent(code.value).None? then
      None
    else
      var amount := PercentageOf(subtotal, DiscountPercent(code.value).value);
      MakeCart(items, Discount(code.value, amount), subtotal, subtotal - amount)
  }

  datatype Order = Order(created: bool, orderId: Option<string>)
  {
    predicate Valid() {
      created <==> orderId.Some?
    }
  }

  datatype Preferences = Preferences(deliveryNote: string, giftWrap: bool)
  {
    predicate Valid() {
      |deliveryNote| <= 200
    }
  }

  datatype TargetState = TargetState(cart: Cart, order: Order, preferences: Preferences)
  {
    predicate Valid() {
      cart.Valid() && order.Valid() && preferences.Valid()
    }
  }

  datatype StoreState = StoreState(version: int, target: TargetState)
  {
    predicate Valid() {
      version >= 1 && target.Valid()
    }

    /** `with_target_state`: the next version. */
    function Next(next: TargetState): StoreState {
      StoreState(version + 1, next)
    }
  }

  /** What `empty_state` builds: version 1, with nothing bought, discounted, ordered or noted. */
  predicate IsEmpty(s: StoreState) {
    && s.version == 1
    && |s.target.cart.items| == 0
    && s.target.cart.discount.FullPrice?
    && s.target.cart.total == s.target.cart.subtotal == Subtotal(s.target.cart.items)
    && !s.target.order.created
    && s.target.order.orderId.None?
    && s.target.preferences.deliveryNote == ""
    && !s.target.preferences.giftWrap
  }

  /** There is one such state. */
  lemma OneEmptyState()
    ensures exists s: StoreState :: IsEmpty(s)
    ensures forall s: StoreState, t: StoreState :: IsEmpty(s) && IsEmpty(t) ==> s == t
  {
    var cart := Cart(map[], FullPrice, 0, 0);
    assert IsEmpty(StoreState(1, TargetState(cart, Order(false, None), Preferences("", false))));
  }

  lemma EmptyIsValid(s: StoreState)
    requires IsEmpty(s)
    ensures s.Valid()
  {
  }

  method EmptyState() returns (state: StoreState)
    ensures IsEmpty(state)
  {
    state := StoreState(1, TargetState(Cart(map[], FullPrice, 0, 0), Order(false, None), Preferences("", false)));
  }

  // -- what reachable carts look like -----------------------------------------

  /** Seeded keys at catalog price, quantities from 1 to 5. */
  ghost predicate CatalogLines(items: Lines) {
    forall k :: k in items ==>
                  && SeededLine(k, items[k])
                  && items[k].unitPrice == ProductByLineKey(k).value.price
  }

  /** A cart the store can reach: catalog lines, their sum, and the allowlisted share of that sum taken off. */
  ghost predicate HonestCart(cart: Cart) {
    && CatalogLines(cart.items)
    && cart.subtotal == Subtotal(cart.items)
    && cart.total == cart.subtotal - Reduction(cart.discount)
    && (cart.discount.Discount? ==>
          && DiscountPercent(cart.discount.code).Some?
          && cart.discount.amount
             == PercentageOf(cart.subtotal, DiscountPercent(cart.discount.code).value))
  }

  /** The arithmetic a customer relies on: nothing is negative, and the discount is a fifth to within half a cent. */
  lemma HonestCartBounds(cart: Cart)
    requires HonestCart(cart)
    ensures cart.Valid()
    ensures 0 <= cart.total <= cart.subtotal <= 27500
    ensures cart.discount.Discount? ==> -50 < 100 * cart.discount.amount - 20 * cart.subtotal <= 50
  {
    SubtotalRange(cart.items);
    PercentageBounds(cart.subtotal, cart.subtotal, 20);
  }

  function QuantityOf(items: Lines, lineKey: string): int {
    if lineKey in items then items[lineKey].quantity else 0
  }

  /** What the lines of an honest cart cost. */
  lemma HonestSubtotal(cart: Cart)
    requires HonestCart(cart)
    ensures cart.subtotal == 25_00 * QuantityOf(cart.items, "mug") + 12_00 * QuantityOf(cart.items, "notebook")
                             + 18_00 * QuantityOf(cart.items, "tote")
  {
    assert |"mug"| == 3 && |"notebook"| == 8 && |"tote"| == 4;
  }

  predicate LineUnder(items: Lines, lineKey: string, productId: string) {
    lineKey in items ==> items[lineKey].productId == productId && 1 <= items[lineKey].quantity <= 5
  }

  function CostUnder(items: Lines, lineKey: string): Cents {
    if lineKey in items then items[lineKey].unitPrice * items[lineKey].quantity else 0
  }

  /** Exactly what the cart validator accepts. */
  lemma ValidatorIsExact(cart: Cart)
    ensures cart.Valid()
       <==> && cart.items.Keys <= {"mug", "notebook", "tote"}
            && LineUnder(cart.items, "mug", "mug-ceramic-001") && LineUnder(cart.items, "notebook", "notebook-001")
            && LineUnder(cart.items, "tote", "tote-001")
            && (cart.discount.Discount? ==> 1 <= |cart.discount.code| <= 32)
            && cart.subtotal
               == CostUnder(cart.items, "mug") + CostUnder(cart.items, "notebook") + CostUnder(cart.items, "tote")
            && cart.total == cart.subtotal - (if cart.discount.Discount? then cart.discount.amount else 0)
  {
    assert |"mug"| == 3 && |"notebook"| == 8 && |"tote"| == 4;
    assert |"mug-ceramic-001"| == 15 && |"notebook-001"| == 12 && |"tote-001"| == 8;
  }

  lemma SubtotalRange(items: Lines)
    requires CatalogLines(items)
    ensures 0 <= Subtotal(items) <= 27500
  {
    LineRange(items, MUG);
    LineRange(items, NOTEBOOK);
    LineRange(items, TOTE);
  }

  lemma LineRange(items: Lines, p: Product)
    requires CatalogLines(items) && ProductByLineKey(p.lineKey) == Some(p) && p.price >= 0
    ensures 0 <= LineTotalAt(items, p.lineKey) <= p.price * MAX_LINE_QUANTITY
  {
    if p.lineKey in items {
      ProductMonotone(p.price, 1, items[p.lineKey].quantity);
      ProductMonotone(p.price, items[p.lineKey].quantity, MAX_LINE_QUANTITY);
    }
  }

  /** The validator never rejects what `build_cart` derives from catalog lines, and the result is honest. */
  lemma BuildCartIsHonest(items: Lines, code: Option<string>)
    requires CatalogLines(items)
    requires code.Some? ==> DiscountPercent(code.value).Some?
    ensures BuildCart(items, code).Some?
    ensures var cart := BuildCart(items, code).value;
            HonestCart(cart) && cart.items == items && cart.Code() == code
  {
  }

  /** An honest cart is determined by its lines and its discount code. */
  lemma HonestCartIsBuilt(cart: Cart)
    requires HonestCart(cart)
    ensures BuildCart(cart.items, cart.Code()) == Some(cart)
  {
    BuildCartIsHonest(cart.items, cart.Code());
  }

  /** Replacing or removing one seeded line moves the subtotal by exactly that line. */
  lemma SubtotalOfUpdate(items: Lines, p: Product, line: CartLine)
    requires ProductByLineKey(p.lineKey) == Some(p)
    ensures Subtotal(items[p.lineKey := line]) == Subtotal(items) - LineTotalAt(items, p.lineKey) + line.LineTotal()
    ensures Subtotal(items - {p.lineKey}) == Subtotal(items) - LineTotalAt(items, p.lineKey)
  {
    assert |MUG.lineKey| == 3 && |NOTEBOOK.lineKey| == 8 && |TOTE.lineKey| == 4;
  }
}
