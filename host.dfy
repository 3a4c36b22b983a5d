/** The browser side the components talk to: the two persisted collections of `localStorage`
    (`books` and `orders`), and a trace of the observable effects in the order they happen
    (collection writes, actions dispatched to the cart context, navigation, completion callbacks). */
module Host {
  import opened Model

  datatype Effect =
    | BooksWritten
    | OrdersWritten
    | Dispatched(action: CartAction)
    | Navigated(path: string)
    | Completed

  /** `n` copies of one effect. */
  function Repeat(e: Effect, n: nat): (r: seq<Effect>)
    ensures |r| == n
    ensures forall i :: 0 <= i < n ==> r[i] == e
  {
    if n == 0 then [] else Repeat(e, n - 1) + [e]
  }

  class Host {
    /** The `books` key; `None` when it was never written. */
    var storedBooks: Option<seq<Book>>
    /** The `orders` key; a missing key reads as `[]`, so it is kept as the empty log. */
    var storedOrders: seq<StoredRecord>
    var trace: seq<Effect>

    constructor (books: Option<seq<Book>>, orders: seq<StoredRecord>)
      ensures storedBooks == books && storedOrders == orders && trace == []
    {
      storedBooks, storedOrders, trace := books, orders, [];
    }

    /** `localStorage.setItem('orders', JSON.stringify(records))`: the whole log is replaced. */
    method WriteOrders(records: seq<StoredRecord>)
      modifies this
      ensures storedOrders == records && storedBooks == old(storedBooks)
      ensures trace == old(trace) + [OrdersWritten]
    {
      storedOrders := records;
      trace := trace + [OrdersWritten];
    }

    /** `localStorage.setItem('books', JSON.stringify(books))`: the whole catalog is replaced. */
    method WriteBooks(books: seq<Book>)
      modifies this
      ensures storedBooks == Some(books) && storedOrders == old(storedOrders)
      ensures trace == old(trace) + [BooksWritten]
    {
      storedBooks := Some(books);
      trace := trace + [BooksWritten];
    }

    /** `dispatch(action)` to the cart context, whose reducer is not part of this model. */
    method Dispatch(action: CartAction)
      modifies this
      ensures storedBooks == old(storedBooks) && storedOrders == old(storedOrders)
      ensures trace == old(trace) + [Dispatched(action)]
    {
      trace := trace + [Dispatched(action)];
    }

    /** `navigate(path)`. */
    method Navigate(path: string)
      modifies this
      ensures storedBooks == old(storedBooks) && storedOrders == old(storedOrders)
      ensures trace == old(trace) + [Navigated(path)]
    {
      trace := trace + [Navigated(path)];
    }

    /** A completion callback handed in by a parent component. */
    method Complete()
      modifies this
      ensures storedBooks == old(storedBooks) && storedOrders == old(storedOrders)
      ensures trace == old(trace) + [Completed]
    {
      trace := trace + [Completed];
    }
  }
}
