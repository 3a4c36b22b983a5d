/** The checkout page: the empty-cart redirect, the shipping form, and the submit that writes the new
    order at the head of the log before asking the cart context to clear. */
module Checkout {
  import opened Model
  import opened Host

  class CheckoutPage {
    var formData: CustomerDetails
    var isProcessing: bool
    const host: Host

    constructor (host: Host)
      ensures this.host == host && formData == EmptyForm && !isProcessing
    {
      this.host := host;
      formData, isProcessing := EmptyForm, false;
    }

    /** Rendering against the current cart: an empty cart navigates home and shows no form. */
    method Render(cart: CartState) returns (shown: bool)
      modifies host
      ensures shown <==> |cart.items| > 0
      ensures host.storedOrders == old(host.storedOrders) && host.storedBooks == old(host.storedBooks)
      ensures host.trace == old(host.trace) + (if shown then [] else [Navigated("/")])
    {
      shown := |cart.items| != 0;
      if !shown {
        host.Navigate("/");
      }
    }

    /** One input of the shipping form changed. */
    method HandleChange(field: Field, value: string)
      modifies this`formData
      ensures formData == WithField(old(formData), field, value)
    {
      formData := WithField(formData, field, value);
    }

    /** The submit: an order carrying the cart's items and total and the form as customer details is
        written at the head of the stored log (older records, malformed ones included, follow in their
        order); only then is the cart cleared and the shopper sent to the order history. */
    method HandleSubmit(cart: CartState, id: string, now: string) returns (order: Order)
      modifies this`isProcessing, host
      ensures order.id == id && order.date == now
      ensures order.items == cart.items && order.total == cart.total
      ensures order.customerDetails == formData && order.attachedImages == None
      ensures host.storedOrders == [Stored(order)] + old(host.storedOrders)
      ensures host.storedBooks == old(host.storedBooks)
      ensures host.trace == old(host.trace) + [OrdersWritten, Dispatched(ClearCart), Navigated("/orders")]
      ensures isProcessing
    {
      isProcessing := true;
      order := NewOrder(id, cart.items, cart.total, formData, now);
      var orders := host.storedOrders;
      host.WriteOrders([Stored(order)] + orders);
      host.Dispatch(ClearCart);
      host.Navigate("/orders");
    }

    /** A visit that ends in a submit: with an empty cart no order is created and the shopper is sent
        home; otherwise exactly one order is prepended and the cart is cleared after it is stored. */
    method CheckOut(cart: CartState, id: string, now: string) returns (placed: Option<Order>)
      modifies this`isProcessing, host
      ensures placed.None? <==> cart.items == []
      ensures placed.None? ==> host.storedOrders == old(host.storedOrders)
      ensures placed.None? ==> host.trace == old(host.trace) + [Navigated("/")]
      ensures placed.Some? ==> placed.value.items == cart.items && placed.value.total == cart.total
      ensures placed.Some? ==> host.storedOrders == [Stored(placed.value)] + old(host.storedOrders)
      ensures placed.Some? ==> host.trace == old(host.trace) + [OrdersWritten, Dispatched(ClearCart), Navigated("/orders")]
      ensures host.storedBooks == old(host.storedBooks)
    {
      var shown := Render(cart);
      if shown {
        var order := HandleSubmit(cart, id, now);
        placed := Some(order);
      } else {
        placed := None;
      }
    }
  }
}
