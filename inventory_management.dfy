/** The admin inventory page: the editable catalog, its stock rule, the add/edit save, the search
    box and the stock-status column. */
module InventoryManagement {
  import opened Model
  import opened Seqs
  import opened Text
  import opened Host

  /** The categories the book form offers; a new book starts in the first. */
  const FormCategories: seq<string> := ["Fiction", "Non-Fiction", "Science", "Business", "Technology"]

  /** The restock convention: an out-of-stock book has an expected date, a stocked one has none. */
  predicate DateConvention(b: Book)
  {
    (b.inventory == 0 ==> b.expectedDate.Some?) && (b.inventory > 0 ==> b.expectedDate.None?)
  }

  /** The per-book step of a stock update: the new count, a default restock date thirty days out when
      the count drops to zero with no date set, and no date once the count is positive. */
  function WithStock(b: Book, newInventory: int, today: Day): (r: Book)
    ensures r.inventory == newInventory
    ensures r.(inventory := b.inventory, expectedDate := b.expectedDate) == b
    ensures newInventory == 0 && b.expectedDate.None? ==> r.expectedDate == Some(today + 30)
    ensures newInventory == 0 && b.expectedDate.Some? ==> r.expectedDate == b.expectedDate
    ensures newInventory > 0 ==> r.expectedDate.None?
    ensures newInventory < 0 ==> r.expectedDate == b.expectedDate
  {
    var updated := b.(inventory := newInventory);
    var dated :=
      if newInventory == 0 && updated.expectedDate.None? then updated.(expectedDate := Some(today + 30))
      else updated;
    if newInventory > 0 then dated.(expectedDate := None) else dated
  }

  /** A non-negative stock update leaves the book obeying the restock convention, whatever it was. */
  lemma StockUpdateEstablishesConvention(b: Book, newInventory: int, today: Day)
    requires newInventory >= 0
    ensures DateConvention(WithStock(b, newInventory, today))
  {
  }

  /** Repeating a stock update is a no-op, even on another day: the date set by the first is kept. */
  lemma StockUpdateIdempotent(b: Book, newInventory: int, today: Day, later: Day)
    ensures WithStock(WithStock(b, newInventory, today), newInventory, later) == WithStock(b, newInventory, today)
  {
  }

  /** `handleInventoryUpdate`'s new list: every entry with the id gets the stock step, the others are
      kept; length and order are unchanged. */
  function UpdatedInventory(books: seq<Book>, id: string, newInventory: int, today: Day): (r: seq<Book>)
    ensures |r| == |books|
    ensures forall i :: 0 <= i < |books| && books[i].id == id ==> r[i] == WithStock(books[i], newInventory, today)
    ensures forall i :: 0 <= i < |books| && books[i].id != id ==> r[i] == books[i]
  {
    MapWhere(books, (b: Book) => b.id == id, (b: Book) => WithStock(b, newInventory, today))
  }

  /** A catalog in which every book obeys the restock convention still does after a non-negative stock
      update. */
  lemma UpdatePreservesConvention(books: seq<Book>, id: string, newInventory: int, today: Day)
    requires newInventory >= 0
    requires forall i :: 0 <= i < |books| ==> DateConvention(books[i])
    ensures forall i :: 0 <= i < |books| ==> DateConvention(UpdatedInventory(books, id, newInventory, today)[i])
  {
    var r := UpdatedInventory(books, id, newInventory, today);
    forall i | 0 <= i < |books|
      ensures DateConvention(r[i])
    {
      if books[i].id == id {
        StockUpdateEstablishesConvention(books[i], newInventory, today);
      }
    }
  }

  /** `handleBookSave`'s new list. Editing replaces every entry with the saved book's id and keeps the
      length; adding appends at the end without looking at the ids already present. */
  function SavedInventory(books: seq<Book>, book: Book, editing: bool): (r: seq<Book>)
    ensures editing ==> |r| == |books|
    ensures editing ==> forall i :: 0 <= i < |books| ==> r[i] == if books[i].id == book.id then book else books[i]
    ensures !editing ==> |r| == |books| + 1 && r[..|books|] == books && r[|books|] == book
  {
    if editing then MapWhere(books, (b: Book) => b.id == book.id, (_: Book) => book)
    else books + [book]
  }

  function Ids(books: seq<Book>): set<string>
  {
    set i | 0 <= i < |books| :: books[i].id
  }

  /** Editing never changes which ids the catalog holds; adding contributes exactly the new id. */
  lemma SaveIds(books: seq<Book>, book: Book, editing: bool)
    ensures editing && book.id in Ids(books) ==> Ids(SavedInventory(books, book, editing)) == Ids(books)
    ensures !editing ==> Ids(SavedInventory(books, book, editing)) == Ids(books) + {book.id}
  {
    var r := SavedInventory(books, book, editing);
    if editing && book.id in Ids(books) {
      forall x | x in Ids(r) ensures x in Ids(books) {
        var i :| 0 <= i < |r| && r[i].id == x;
      }
      forall x | x in Ids(books) ensures x in Ids(r) {
        var i :| 0 <= i < |books| && books[i].id == x;
        assert r[i].id == x;
      }
    } else if !editing {
      forall x | x in Ids(r) ensures x in Ids(books) + {book.id} {
        var i :| 0 <= i < |r| && r[i].id == x;
        if i < |books| { assert r[i] == books[i]; }
      }
      forall x | x in Ids(books) + {book.id} ensures x in Ids(r) {
        if x == book.id {
          assert r[|books|].id == x;
        } else {
          var i :| 0 <= i < |books| && books[i].id == x;
          assert r[i].id == x;
        }
      }
    }
  }

  /** Editing with an id the catalog does not hold changes nothing: an edit never adds a book. */
  lemma EditOfUnknownIdChangesNothing(books: seq<Book>, book: Book)
    requires book.id !in Ids(books)
    ensures SavedInventory(books, book, true) == books
  {
    assert forall i :: 0 <= i < |books| ==> books[i].id in Ids(books);
    MapWhereNoMatch(books, (b: Book) => b.id == book.id, (_: Book) => book);
  }

  /** Adding a book whose id is already present leaves two entries with that id. */
  lemma AddDoesNotCheckIds(books: seq<Book>, book: Book)
    requires book.id in Ids(books)
    ensures var r := SavedInventory(books, book, false);
      exists i, j :: 0 <= i < j < |r| && r[i].id == book.id && r[j].id == book.id
  {
    var r := SavedInventory(books, book, false);
    var i :| 0 <= i < |books| && books[i].id == book.id;
    assert r[i] == books[i] && r[|books|] == book;
  }

  /** The search box's test: the term occurs, ignoring case, in the title, the author or the category. */
  predicate MatchesSearch(b: Book, term: string)
  {
    ContainsIgnoringCase(b.title, term) || ContainsIgnoringCase(b.author, term) || ContainsIgnoringCase(b.category, term)
  }

  /** `filteredInventory`: the matching books, in catalog order. */
  function FilteredInventory(books: seq<Book>, term: string): (r: seq<Book>)
    ensures IsSubsequence(r, books)
    ensures forall x :: multiset(r)[x] == if MatchesSearch(x, term) then multiset(books)[x] else 0
    ensures forall i :: 0 <= i < |r| ==> r[i] in books && MatchesSearch(r[i], term)
    ensures forall i :: 0 <= i < |books| && MatchesSearch(books[i], term) ==> books[i] in r
  {
    Filter(books, (b: Book) => MatchesSearch(b, term))
  }

  /** An empty search term shows the whole catalog. */
  lemma EmptySearchKeepsAll(books: seq<Book>)
    ensures FilteredInventory(books, "") == books
  {
    forall i | 0 <= i < |books| ensures MatchesSearch(books[i], "") {
      EmptyNeedle(books[i].title);
    }
    FilterKeepsAll(books, (b: Book) => MatchesSearch(b, ""));
  }

  /** The stock-status column. An out-of-stock row also shows the expected date when there is one. */
  datatype StockStatus = OutOfStock(expected: Option<Day>) | LowStock | InStock

  function Status(b: Book): (s: StockStatus)
    ensures s.OutOfStock? <==> b.inventory == 0
    ensures s.LowStock? <==> b.inventory != 0 && b.inventory <= 5
    ensures s.InStock? <==> b.inventory > 5
    ensures s.OutOfStock? ==> s.expected == b.expectedDate
  {
    if b.inventory == 0 then OutOfStock(b.expectedDate)
    else if b.inventory <= 5 then LowStock
    else InStock
  }

  /** Setting a book's stock to zero always makes its row show an expected date. */
  lemma ZeroStockShowsExpectedDate(books: seq<Book>, id: string, today: Day, i: nat)
    requires i < |books| && books[i].id == id
    ensures Status(UpdatedInventory(books, id, 0, today)[i]).OutOfStock?
    ensures Status(UpdatedInventory(books, id, 0, today)[i]).expected.Some?
  {
  }

  /** The book form's starting value: a copy of the book being edited, or a blank book with a fresh id,
      no stock, price zero and the first category. */
  function InitialForm(book: Option<Book>, freshId: string): (r: Book)
    ensures book.Some? ==> r == book.value
    ensures book.None? ==> r.id == freshId && r.inventory == 0 && r.price == 0 && r.category == FormCategories[0]
    ensures book.None? ==> r.title == "" && r.author == "" && r.image == "" && r.expectedDate.None?
  {
    match book
    case Some(b) => b
    case None => Book(freshId, "", "", 0, FormCategories[0], "", 0, None)
  }

  /** A blank book saved unchanged is out of stock without a restock date: only the stock update
      enforces the convention, the form does not. */
  lemma NewBookBreaksConvention(freshId: string)
    ensures !DateConvention(InitialForm(None, freshId))
  {
  }

  /** The page's state: the catalog copy it edits, the search term and the modal's selection. */
  class InventoryPage {
    var inventory: seq<Book>
    var searchTerm: string
    var selectedBook: Option<Book>
    var isModalOpen: bool
    const host: Host

    /** A book is selected only while the modal is open: it is selected together with opening, and the
        only way to close clears it. */
    predicate Valid()
      reads this
    {
      selectedBook.Some? ==> isModalOpen
    }

    /** The catalog is read from storage, falling back to the seed catalog when nothing is stored. */
    constructor (host: Host, seed: seq<Book>)
      ensures this.host == host
      ensures inventory == host.storedBooks.GetOr(seed)
      ensures searchTerm == "" && selectedBook == None && !isModalOpen
      ensures Valid()
    {
      this.host := host;
      inventory := host.storedBooks.GetOr(seed);
      searchTerm, selectedBook, isModalOpen := "", None, false;
    }

    method SetSearchTerm(term: string)
      requires Valid()
      modifies this`searchTerm
      ensures searchTerm == term
      ensures Valid()
    {
      searchTerm := term;
    }

    /** The "Add Book" button. It only opens the modal and leaves the selection as it is: pressed
        while the modal is closed there is no selection, but the open modal blocks only the pointer,
        so the button can still be reached by keyboard and then keeps an edit in progress. */
    method OpenForAdd()
      requires Valid()
      modifies this`isModalOpen
      ensures isModalOpen && selectedBook == old(selectedBook)
      ensures !old(isModalOpen) ==> selectedBook == None
      ensures Valid()
    {
      isModalOpen := true;
    }

    /** A row's "Edit" button: selects the book and opens the modal, also when the modal is already
        open (reached by keyboard), which switches a blank add form into edit mode. */
    method OpenForEdit(book: Book)
      requires Valid()
      modifies this`selectedBook, this`isModalOpen
      ensures selectedBook == Some(book) && isModalOpen
      ensures Valid()
    {
      selectedBook := Some(book);
      isModalOpen := true;
    }

    method CloseModal()
      modifies this`selectedBook, this`isModalOpen
      ensures selectedBook == None && !isModalOpen
      ensures Valid()
    {
      selectedBook := None;
      isModalOpen := false;
    }

    /** A stock input changed: the entry's stock rule is applied and the catalog is persisted. */
    method HandleInventoryUpdate(id: string, newInventory: int, today: Day)
      requires Valid()
      modifies this`inventory, host
      ensures Valid()
      ensures inventory == UpdatedInventory(old(inventory), id, newInventory, today)
      ensures host.storedBooks == Some(inventory) && host.storedOrders == old(host.storedOrders)
      ensures host.trace == old(host.trace) + [BooksWritten]
    {
      inventory := UpdatedInventory(inventory, id, newInventory, today);
      host.WriteBooks(inventory);
    }

    /** The modal saved a book: edit mode when a book was selected, add mode otherwise. */
    method HandleBookSave(book: Book)
      requires Valid()
      modifies this`inventory, host
      ensures Valid()
      ensures inventory == SavedInventory(old(inventory), book, selectedBook.Some?)
      ensures host.storedBooks == Some(inventory) && host.storedOrders == old(host.storedOrders)
      ensures host.trace == old(host.trace) + [BooksWritten]
    {
      inventory := SavedInventory(inventory, book, selectedBook.Some?);
      host.WriteBooks(inventory);
    }

    /** The modal's submit: save the form, then close the modal. */
    method SubmitForm(form: Book)
      requires Valid()
      modifies this`inventory, this`selectedBook, this`isModalOpen, host
      ensures Valid()
      ensures inventory == SavedInventory(old(inventory), form, old(selectedBook).Some?)
      ensures selectedBook == None && !isModalOpen
      ensures host.storedBooks == Some(inventory) && host.storedOrders == old(host.storedOrders)
      ensures host.trace == old(host.trace) + [BooksWritten]
    {
      HandleBookSave(form);
      CloseModal();
    }
  }
}
