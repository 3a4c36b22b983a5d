/** A catalog card: the add-to-cart action it dispatches and its stock label. */
module BookCard {
  import opened Model
  import InventoryManagement

  /** `handleAddToCart`'s action: the whole book, flagged as a pre-order exactly when none is in stock. */
  function AddToCart(book: Book): (a: CartAction)
    ensures a.AddItem? && a.book == book
    ensures a.isPreOrder <==> book.inventory == 0
  {
    AddItem(book, book.inventory == 0)
  }

  /** The card's stock label. */
  datatype StockLabel = Preorder | LowStock | Count(n: int)

  function Label(book: Book): (l: StockLabel)
    ensures l.Preorder? <==> book.inventory == 0
    ensures l.LowStock? <==> book.inventory != 0 && book.inventory <= 5
    ensures l.Count? <==> book.inventory > 5
    ensures l.Count? ==> l.n == book.inventory
  {
    if book.inventory == 0 then Preorder
    else if book.inventory <= 5 then LowStock
    else Count(book.inventory)
  }

  /** The card flags a pre-order exactly when it shows the pre-order label. */
  lemma PreOrderFlagMatchesLabel(book: Book)
    ensures AddToCart(book).isPreOrder <==> Label(book) == Preorder
  {
  }

  /** The card and the admin status column classify stock the same way. */
  lemma LabelAgreesWithAdminStatus(book: Book)
    ensures Label(book).Preorder? <==> InventoryManagement.Status(book).OutOfStock?
    ensures Label(book).LowStock? <==> InventoryManagement.Status(book).LowStock?
    ensures Label(book).Count? <==> InventoryManagement.Status(book).InStock?
  {
  }
}
