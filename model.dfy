/** The records of the bookstore: catalog entries, cart lines, orders as the order log keeps them,
    and the cart actions the components dispatch.

    Prices and totals are integer cents (they are only ever copied here, never computed).
    Dates are day numbers: `Day` stands for a calendar day, so "thirty days from today" is `today + 30`. */
module Model {

  datatype Option<T> = None | Some(value: T) {
    function GetOr(default: T): T {
      match this
      case Some(v) => v
      case None => default
    }
  }

  type Day = int

  /** A catalog entry. `expectedDate` is the restock date shown while the book is out of stock. */
  datatype Book = Book(
    id: string,
    title: string,
    author: string,
    price: int,
    category: string,
    image: string,
    inventory: int,
    expectedDate: Option<Day>)

  /** A cart line item: a copy of the book plus a quantity and the pre-order flag. */
  datatype CartLine = CartLine(book: Book, quantity: int, isPreOrder: bool) {
    function Id(): string { book.id }
  }

  /** The cart as the cart context exposes it. How the items and the total evolve is decided by a
      reducer outside this model, so a cart state is only ever an input here. */
  datatype CartState = CartState(items: seq<CartLine>, total: int)

  /** The shipping form of both checkout surfaces; it becomes the order's customer details. */
  datatype CustomerDetails = CustomerDetails(name: string, email: string, address: string, phone: string)

  /** The four named inputs of the shipping form. */
  datatype Field = Name | Email | Address | Phone

  const EmptyForm := CustomerDetails("", "", "", "")

  /** `{ ...prev, [name]: value }` for the form's four inputs. */
  function WithField(form: CustomerDetails, field: Field, value: string): (r: CustomerDetails)
    ensures FieldValue(r, field) == value
    ensures forall other :: other != field ==> FieldValue(r, other) == FieldValue(form, other)
  {
    match field
    case Name => form.(name := value)
    case Email => form.(email := value)
    case Address => form.(address := value)
    case Phone => form.(phone := value)
  }

  function FieldValue(form: CustomerDetails, field: Field): string
  {
    match field
    case Name => form.name
    case Email => form.email
    case Address => form.address
    case Phone => form.phone
  }

  /** An order of the order log. Only `attachedImages` ever changes after checkout. */
  datatype Order = Order(
    id: string,
    items: seq<CartLine>,
    total: int,
    customerDetails: CustomerDetails,
    date: string,
    attachedImages: Option<seq<string>>)

  /** The images of an order, an absent list read as empty (`order.attachedImages || []`). */
  function ImagesOf(o: Order): seq<string>
  {
    o.attachedImages.GetOr([])
  }

  /** A record as it sits in the persisted order log. The log is parsed without validation, so an
      entry may be `null` or may lack its customer details. */
  datatype StoredRecord =
    | Null
    | Record(
        id: string,
        items: seq<CartLine>,
        total: int,
        customerDetails: Option<CustomerDetails>,
        date: string,
        attachedImages: Option<seq<string>>)

  /** The minimal shape check of the order history: `order && order.customerDetails`. */
  predicate IsWellFormed(r: StoredRecord)
  {
    r.Record? && r.customerDetails.Some?
  }

  /** How an order is written to the log. */
  function Stored(o: Order): (r: StoredRecord)
    ensures IsWellFormed(r) && AsOrder(r) == o
  {
    Record(o.id, o.items, o.total, Some(o.customerDetails), o.date, o.attachedImages)
  }

  /** How a well-formed record is read back as an order. */
  function AsOrder(r: StoredRecord): Order
    requires IsWellFormed(r)
  {
    Order(r.id, r.items, r.total, r.customerDetails.value, r.date, r.attachedImages)
  }

  /** Reading a well-formed record and writing the order again gives back the same record. */
  lemma AsOrderThenStored(r: StoredRecord)
    requires IsWellFormed(r)
    ensures Stored(AsOrder(r)) == r
  {
  }

  /** `JSON.stringify(orders)`: the whole log written back, record by record. */
  function StoreAll(orders: seq<Order>): (r: seq<StoredRecord>)
    ensures |r| == |orders|
    ensures forall i :: 0 <= i < |orders| ==> r[i] == Stored(orders[i])
  {
    if orders == [] then [] else [Stored(orders[0])] + StoreAll(orders[1..])
  }

  /** The order both checkout surfaces build: the given items and total, the form as customer
      details, and no attached images. */
  function NewOrder(id: string, items: seq<CartLine>, total: int, form: CustomerDetails, date: string): (o: Order)
    ensures o.id == id && o.items == items && o.total == total && o.date == date
    ensures o.customerDetails == form
    ensures ImagesOf(o) == [] && o.attachedImages.None?
  {
    Order(id, items, total, form, date, None)
  }

  /** The actions dispatched to the cart context, each with its payload. */
  datatype CartAction =
    | AddItem(book: Book, isPreOrder: bool)
    | UpdateQuantity(id: string, quantity: int)
    | RemoveItem(id: string)
    | ClearCart
}
