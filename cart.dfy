/** The cart panel: the actions its buttons dispatch and when it offers checkout. The reducer that
    applies the actions belongs to the cart context, which is not part of this model. */
module Cart {
  import opened Model
  import App

  /** The minus button: one fewer, never below zero. */
  function DecrementAction(line: CartLine): (a: CartAction)
    ensures a.UpdateQuantity? && a.id == line.Id()
    ensures a.quantity >= 0
    ensures line.quantity >= 1 ==> a.quantity == line.quantity - 1
    ensures line.quantity < 1 ==> a.quantity == 0
  {
    UpdateQuantity(line.Id(), if line.quantity - 1 > 0 then line.quantity - 1 else 0)
  }

  /** The plus button: one more of the same item. */
  function IncrementAction(line: CartLine): (a: CartAction)
    ensures a.UpdateQuantity? && a.id == line.Id() && a.quantity == line.quantity + 1
  {
    UpdateQuantity(line.Id(), line.quantity + 1)
  }

  /** The remove button: the line item's id. */
  function RemoveAction(line: CartLine): (a: CartAction)
    ensures a.RemoveItem? && a.id == line.Id()
  {
    RemoveItem(line.Id())
  }

  /** Plus undoes minus for a line holding at least one item. */
  lemma IncrementUndoesDecrement(line: CartLine)
    requires line.quantity >= 1
    ensures IncrementAction(line.(quantity := DecrementAction(line).quantity)) == UpdateQuantity(line.Id(), line.quantity)
  {
  }

  /** "Proceed to Checkout" is enabled exactly when the cart has items, that is, exactly when the
      header shows its cart badge. */
  predicate CheckoutEnabled(cart: CartState)
    ensures CheckoutEnabled(cart) <==> App.CartBadge(cart).Some?
  {
    |cart.items| != 0
  }

  /** "Your cart is empty" is shown exactly when the cart has no items. */
  predicate ShowsEmptyMessage(cart: CartState)
  {
    |cart.items| == 0
  }

  /** The panel either lists items and offers checkout, or says it is empty; never both. */
  lemma EmptyMessageExcludesCheckout(cart: CartState)
    ensures CheckoutEnabled(cart) <==> !ShowsEmptyMessage(cart)
    ensures CheckoutEnabled(cart) <==> cart.items != []
  {
  }
}
