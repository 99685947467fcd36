/**
 * The `Purchase` document and its validations. The e-mail format check is a
 * library regular expression; it is a parameter `emailFormat` of the
 * predicates here, so every statement below holds for any e-mail format.
 * Amounts are whole cents.
 */
module Purchases {
  import opened Wrappers
  import opened Presence
  import Events

  datatype Purchase = Purchase(
    customerEmail: Option<string>,
    customerName: Option<string>,
    quantity: Option<int>,
    totalPrice: Option<Events.Cents>)

  /** The attributes that carry a validation, in declaration order. */
  datatype Attribute = CustomerEmail | CustomerName | Quantity | TotalPrice

  const Validated: set<Attribute> := {CustomerEmail, CustomerName, Quantity, TotalPrice}

  /** Whether the `validates` line for attribute `a` accepts `p`. */
  predicate Passes(p: Purchase, a: Attribute, emailFormat: string -> bool) {
    match a
    case CustomerEmail => Present(p.customerEmail) && emailFormat(p.customerEmail.value)
    case CustomerName => Present(p.customerName)
    case Quantity => p.quantity.Some? && p.quantity.value > 0
    case TotalPrice => p.totalPrice.Some? && p.totalPrice.value > 0
  }

  /** The attributes `p.errors` names after `p.valid?` has run its validations. */
  function Errors(p: Purchase, emailFormat: string -> bool): (r: set<Attribute>)
    ensures forall a :: a in r <==> !Passes(p, a, emailFormat)
  {
    set a | a in Validated && !Passes(p, a, emailFormat)
  }

  /** `p.valid?`: no validation recorded an error. */
  predicate Valid(p: Purchase, emailFormat: string -> bool) {
    Errors(p, emailFormat) == {}
  }

  /** Validity is exactly the conjunction of the four rules, each on its raw field. */
  lemma ValidIff(p: Purchase, emailFormat: string -> bool)
    ensures Valid(p, emailFormat) <==>
      p.customerEmail.Some? && !Blank(p.customerEmail.value) && emailFormat(p.customerEmail.value) &&
      p.customerName.Some? && !Blank(p.customerName.value) &&
      p.quantity.Some? && p.quantity.value > 0 &&
      p.totalPrice.Some? && p.totalPrice.value > 0
  {
    if Valid(p, emailFormat) {
      assert CustomerEmail !in Errors(p, emailFormat) && CustomerName !in Errors(p, emailFormat);
      assert Quantity !in Errors(p, emailFormat) && TotalPrice !in Errors(p, emailFormat);
    } else {
      var a :| a in Errors(p, emailFormat);
    }
  }

  /** A quantity that is missing or not positive makes the purchase invalid. */
  lemma NonPositiveQuantityInvalid(p: Purchase, emailFormat: string -> bool)
    requires p.quantity.None? || p.quantity.value <= 0
    ensures !Valid(p, emailFormat) && Quantity in Errors(p, emailFormat)
  {
    assert !Passes(p, Quantity, emailFormat);
  }

  /** A total price that is missing or not positive makes the purchase invalid. */
  lemma NonPositiveTotalInvalid(p: Purchase, emailFormat: string -> bool)
    requires p.totalPrice.None? || p.totalPrice.value <= 0
    ensures !Valid(p, emailFormat) && TotalPrice in Errors(p, emailFormat)
  {
    assert !Passes(p, TotalPrice, emailFormat);
  }

  /** A blank name, a blank e-mail or an e-mail the format rejects makes the purchase invalid. */
  lemma BadCustomerInvalid(p: Purchase, emailFormat: string -> bool)
    requires !Present(p.customerName) || !Present(p.customerEmail) || !emailFormat(p.customerEmail.value)
    ensures !Valid(p, emailFormat)
    ensures !Present(p.customerName) ==> CustomerName in Errors(p, emailFormat)
    ensures !(Present(p.customerEmail) && emailFormat(p.customerEmail.value)) ==> CustomerEmail in Errors(p, emailFormat)
  {
    assert !Passes(p, CustomerName, emailFormat) || !Passes(p, CustomerEmail, emailFormat);
  }

  /**
   * A purchase as the test factory and the seed script build it: a quantity
   * and `total_price = quantity * event.price`.
   */
  function FactoryPurchase(event: Events.Event, email: string, name: string, quantity: int): (p: Purchase)
    requires event.price.Some?
    ensures p.quantity == Some(quantity)
    ensures p.totalPrice.Some? && p.totalPrice.value == quantity * event.price.value
  {
    Purchase(Some(email), Some(name), Some(quantity), Some(quantity * event.price.value))
  }

  /** With a quantity in 1..5 and a positive event price, the quantity and total-price rules hold. */
  lemma FactoryPurchaseAmountsValid(event: Events.Event, email: string, name: string, quantity: int, emailFormat: string -> bool)
    requires event.price.Some? && event.price.value > 0
    requires 1 <= quantity <= 5
    ensures Quantity !in Errors(FactoryPurchase(event, email, name, quantity), emailFormat)
    ensures TotalPrice !in Errors(FactoryPurchase(event, email, name, quantity), emailFormat)
  {
    var p := FactoryPurchase(event, email, name, quantity);
    assert p.totalPrice.value >= event.price.value;
  }

  /** Every event valid under its own rules has a positive price, so its factory purchases pass the amount rules. */
  lemma FactoryPurchaseOfValidEvent(event: Events.Event, email: string, name: string, quantity: int, emailFormat: string -> bool)
    requires Events.Valid(event)
    requires 1 <= quantity <= 5
    ensures event.price.Some?
    ensures Quantity !in Errors(FactoryPurchase(event, email, name, quantity), emailFormat)
    ensures TotalPrice !in Errors(FactoryPurchase(event, email, name, quantity), emailFormat)
  {
    Events.ValidIff(event);
    FactoryPurchaseAmountsValid(event, email, name, quantity, emailFormat);
  }
}
