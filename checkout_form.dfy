/** The embeddable checkout form: like the checkout page it prepends a new order to the log, but the
    order's total is the one its parent passes in, and instead of clearing the cart it reports
    completion to the parent. */
module CheckoutForm {
  import opened Model
  import opened Host

  class CheckoutFormView {
    var formData: CustomerDetails
    var isProcessing: bool
    /** The `total` prop. */
    const total: int
    const host: Host

    constructor (host: Host, total: int)
      ensures this.host == host && this.total == total
      ensures formData == EmptyForm && !isProcessing
    {
      this.host, this.total := host, total;
      formData, isProcessing := EmptyForm, false;
    }

    /** One input of the shipping form changed. */
    method HandleChange(field: Field, value: string)
      modifies this`formData
      ensures formData == WithField(old(formData), field, value)
    {
      formData := WithField(formData, field, value);
    }

    /** The submit: the order takes the cart's items but the `total` prop, is written at the head of the
        stored log, and only then is completion reported. The cart is never touched. */
    method HandleSubmit(cart: CartState, id: string, now: string) returns (order: Order)
      modifies this`isProcessing, host
      ensures order.id == id && order.date == now
      ensures order.items == cart.items && order.total == total
      ensures order.customerDetails == formData && order.attachedImages == None
      ensures host.storedOrders == [Stored(order)] + old(host.storedOrders)
      ensures host.storedBooks == old(host.storedBooks)
      ensures host.trace == old(host.trace) + [OrdersWritten, Completed]
      ensures isProcessing
    {
      isProcessing := true;
      order := NewOrder(id, cart.items, total, formData, now);
      var orders := host.storedOrders;
      host.WriteOrders([Stored(order)] + orders);
      host.Complete();
    }
  }
}
