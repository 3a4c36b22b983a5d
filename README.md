# Bookstore collection logic in Dafny

This project models the collection logic of a small client-side bookstore: the catalog that the
storefront groups by category, the cart actions that the catalog cards and the cart panel dispatch,
the checkout that snapshots the cart into an order at the head of the order log, the order history
(its defensive load and the attaching and removing of images), and the two admin pages (the
editable inventory with its stock/restock-date rule, and the read-only orders list with its search).

Layout, one module per source file plus shared pieces:

- `model.dfy` (`Model`): books, cart lines, cart state, customer details, orders and the raw
  records of the persisted order log, and the cart actions.
- `seqs.dfy` (`Seqs`) and `text.dfy` (`Text`): the array `filter`/`map` and the string
  `toLowerCase`/`includes` the pages use.
- `host.dfy` (`Host`): `localStorage` (the `books` and `orders` collections, each replaced
  wholesale on every write) and a trace of the observable effects in order. The effects are
  collection writes, cart dispatches, navigation and completion callbacks.
- `inventory_management.dfy`, `order_history.dfy`, `checkout.dfy`, `checkout_form.dfy`,
  `orders_management.dfy`, `app.dfy`, `book_card.dfy`, `cart.dfy`: the components.

Components that change state in place (the inventory page, the order history, both checkout
surfaces) are classes. Their methods state the new state in terms of the old one through pure
functions, and the properties are proved as lemmas about those functions. The grouping of the
catalog is a loop method whose result is tied to specification functions.

In these places the model follows the code as written:

- Attaching several files persists the log once per image as each read finishes, not once for the
  whole batch.
- The restock convention (an expected date exactly when out of stock) is enforced only by the stock
  update. A book added or edited through the form can break it (`NewBookBreaksConvention`).
- A negative stock count touches neither date branch.
- The checkout page writes the new order in front of the raw stored log, corrupt records included.
  The order history, however, writes back only the records it loaded. So the first attach or
  removal also purges corrupt records from storage.
- The inventory modal blocks only the pointer. A row's "Edit" button can still be reached by
  keyboard while a blank "Add Book" form is open. The save then runs in edit mode with the blank
  form's fresh id, which matches no entry, so the new book is lost (`OpenForEdit`, `SubmitForm`,
  `EditOfUnknownIdChangesNothing`).
- The embedded checkout form takes the order total from its `total` prop, not from the cart, and it
  never clears the cart.

## Model

| member | source | states |
|---|---|---|
| `Model.WithField` | src/pages/Checkout.tsx:42-45 | a form change sets the named field to the value and leaves the other three fields as they were |
| `Model.Stored` | src/types.ts:14-26 | an order written to the log is a well-formed record that reads back as the same order |
| `Model.StoreAll` | src/components/OrderHistory.tsx:28 | the log written back has one record per order, in order |
| `Model.IsWellFormed` | src/components/OrderHistory.tsx:8 | a stored record is kept by the history's load iff it is present and has customer details |
| `Model.AsOrderThenStored` | src/components/OrderHistory.tsx:6-9 | a well-formed record read back as an order and written again is the same record |
| `Model.NewOrder` | src/pages/Checkout.tsx:26-32 | a new order carries the given id, items, total and date, the form as customer details, and no images |
| `Host.Host.WriteOrders` | src/pages/Checkout.tsx:35 | writing the orders key replaces the whole log, leaves the books key alone and records one write |
| `Host.Host.WriteBooks` | src/pages/admin/InventoryManagement.tsx:217 | writing the books key replaces the whole catalog, leaves the orders key alone and records one write |
| `Host.Host.Dispatch` | src/pages/Checkout.tsx:38 | a cart dispatch changes no stored collection and is recorded after everything before it |
| `Host.Host.Navigate` | src/pages/Checkout.tsx:39 | navigation changes no stored collection and is recorded in order |
| `Host.Host.Complete` | src/components/CheckoutForm.tsx:36 | the completion callback changes no stored collection and is recorded in order |
| `Seqs.Filter` | src/pages/admin/InventoryManagement.tsx:192-196 | a filter keeps exactly the elements passing the test, each as many times as it occurs, as an order-preserving subsequence |
| `Seqs.FilterKeepsAll` | src/pages/admin/InventoryManagement.tsx:192-196 | a filter whose test every element passes returns the sequence unchanged |
| `Seqs.MapWhere` | src/pages/admin/InventoryManagement.tsx:199-215 | a selective map keeps the length, replaces exactly the selected elements and keeps the rest in place |
| `Seqs.MapWhereNoMatch` | src/pages/admin/InventoryManagement.tsx:224-226 | a selective map that selects nothing is the identity |
| `Text.Lower` | src/pages/admin/InventoryManagement.tsx:193 | lower-casing keeps the length and lower-cases each character (ASCII letters only) |
| `Text.LowerChar` | src/pages/admin/InventoryManagement.tsx:193 | an upper-case ASCII letter becomes the lower-case letter at the same position of the alphabet; any other character is kept |
| `Text.EmptyNeedle` | src/pages/admin/InventoryManagement.tsx:193 | every string contains the empty search term, ignoring case |
| `InventoryManagement.WithStock` | src/pages/admin/InventoryManagement.tsx:200-212 | the updated book has the new count and all other fields but the date unchanged; count 0 without a date sets today+30, count 0 with a date keeps it, a positive count drops it, a negative count keeps it |
| `InventoryManagement.StockUpdateEstablishesConvention` | src/pages/admin/InventoryManagement.tsx:203-211 | after a non-negative stock update the book has a date iff it is out of stock |
| `InventoryManagement.StockUpdateIdempotent` | src/pages/admin/InventoryManagement.tsx:203-207 | repeating a stock update, even on a later day, changes nothing further |
| `InventoryManagement.UpdatedInventory` | src/pages/admin/InventoryManagement.tsx:199-215 | a stock update keeps length and order, applies the stock step to every entry with the id and leaves every other entry identical |
| `InventoryManagement.UpdatePreservesConvention` | src/pages/admin/InventoryManagement.tsx:198-215 | a catalog obeying the restock convention still obeys it after a non-negative stock update |
| `InventoryManagement.SavedInventory` | src/pages/admin/InventoryManagement.tsx:220-230 | an edit replaces every entry with the saved id and keeps the length; an add appends at the end, growing the length by one |
| `InventoryManagement.SaveIds` | src/pages/admin/InventoryManagement.tsx:222-230 | an edit of a present id keeps the set of ids; an add contributes exactly the new id |
| `InventoryManagement.EditOfUnknownIdChangesNothing` | src/pages/admin/InventoryManagement.tsx:224-226 | an edit whose id is not in the catalog leaves it unchanged |
| `InventoryManagement.AddDoesNotCheckIds` | src/pages/admin/InventoryManagement.tsx:227-229 | adding a book whose id is present leaves two entries with that id |
| `InventoryManagement.FilteredInventory` | src/pages/admin/InventoryManagement.tsx:192-196 | the search result is an order-preserving subsequence holding a book iff its title, author or category contains the term, ignoring case, and each matching entry as many times as the catalog does |
| `InventoryManagement.MatchesSearch` | src/pages/admin/InventoryManagement.tsx:193-195 | a book matches iff its lower-cased title, author or category contains the lower-cased term |
| `InventoryManagement.EmptySearchKeepsAll` | src/pages/admin/InventoryManagement.tsx:192-196 | an empty search term shows the whole catalog |
| `InventoryManagement.Status` | src/pages/admin/InventoryManagement.tsx:375-392 | out of stock iff the count is 0 (with the date, if any), else low stock iff the count is at most 5, else in stock |
| `InventoryManagement.ZeroStockShowsExpectedDate` | src/pages/admin/InventoryManagement.tsx:375-384 | after setting a book's stock to 0 its row shows out of stock with an expected date |
| `InventoryManagement.InitialForm` | src/pages/admin/InventoryManagement.tsx:15-27 | editing starts from the book itself (same id); a new book has the fresh id, count 0, price 0, empty texts, the first category and no date |
| `InventoryManagement.NewBookBreaksConvention` | src/pages/admin/InventoryManagement.tsx:17-26 | a blank new book is out of stock without a restock date |
| `InventoryManagement.InventoryPage.constructor` | src/pages/admin/InventoryManagement.tsx:184-190 | the page starts from the stored catalog, or the seed catalog when none is stored, with an empty search and no selection |
| `InventoryManagement.InventoryPage.SetSearchTerm` | src/pages/admin/InventoryManagement.tsx:252 | typing sets the search term |
| `InventoryManagement.InventoryPage.OpenForAdd` | src/pages/admin/InventoryManagement.tsx:255-256 | the add button opens the modal and leaves the selection as it was, so pressed from a closed modal it starts with no book selected; it keeps the page invariant that a book is selected only while the modal is open |
| `InventoryManagement.InventoryPage.OpenForEdit` | src/pages/admin/InventoryManagement.tsx:396-399 | the edit button selects the book and opens the modal, whether or not the modal was already open, keeping the page invariant |
| `InventoryManagement.InventoryPage.CloseModal` | src/pages/admin/InventoryManagement.tsx:235-238 | closing clears the selection and hides the modal |
| `InventoryManagement.InventoryPage.HandleInventoryUpdate` | src/pages/admin/InventoryManagement.tsx:198-218 | the catalog becomes the stock-updated list and is persisted as a whole |
| `InventoryManagement.InventoryPage.HandleBookSave` | src/pages/admin/InventoryManagement.tsx:220-233 | the catalog becomes the edited list when a book is selected, the appended list otherwise, and is persisted |
| `InventoryManagement.InventoryPage.SubmitForm` | src/pages/admin/InventoryManagement.tsx:29-33 | the modal saves in the mode of the selection it was opened with, persists the catalog leaving the order log untouched, then closes |
| `OrderHistory.LoadOrders` | src/components/OrderHistory.tsx:6-9 | the loaded orders are exactly the stored records that are present and have customer details, in stored order |
| `OrderHistory.LoadAfterStore` | src/components/OrderHistory.tsx:28 | a log written from orders loads back as the same orders |
| `OrderHistory.LoadAfterPrepend` | src/pages/Checkout.tsx:34-35 | an order prepended by checkout is the first order the history shows, ahead of the older ones in order |
| `OrderHistory.WithImage` | src/components/OrderHistory.tsx:20-24 | an attach appends the image to the order's list (created if absent), growing it by one, and changes no other field |
| `OrderHistory.AttachImage` | src/components/OrderHistory.tsx:19-27 | an attach keeps the log length, adds the image to every order with the id and leaves other orders identical |
| `OrderHistory.AttachAll` | src/components/OrderHistory.tsx:15-30 | several finished reads apply one attach step per image, in reading order, and keep the log length |
| `OrderHistory.AttachAllAppends` | src/components/OrderHistory.tsx:15-33 | after attaching several images, each order with the id has them appended in reading order and every other order is unchanged |
| `OrderHistory.DropIndex` | src/components/OrderHistory.tsx:40 | removing an in-range position deletes exactly it and keeps the rest in order; an out-of-range index removes nothing |
| `OrderHistory.WithoutImage` | src/components/OrderHistory.tsx:39-45 | a removal changes only the image list, never leaves an empty list, ignores an order without a list, turns a stored empty list into no list, and leaves a non-empty list alone for an out-of-range index |
| `OrderHistory.RemoveImage` | src/components/OrderHistory.tsx:38-47 | a removal keeps the log length, applies to every order with the id and leaves other orders identical |
| `OrderHistory.AttachThenRemove` | src/components/OrderHistory.tsx:43 | removing the image just attached restores the order, its list absent again if it had none |
| `OrderHistory.AttachThenRemoveFirst` | src/components/OrderHistory.tsx:37-51 | on a log whose matching orders have no images, attaching one image and removing position 0 gives back the same log |
| `OrderHistory.OrderHistoryPage.constructor` | src/components/OrderHistory.tsx:6-10 | the page starts from the filtered stored log with no removal pending |
| `OrderHistory.OrderHistoryPage.AttachOne` | src/components/OrderHistory.tsx:17-30 | one finished read attaches its image to the orders and writes the whole log back, recording one write |
| `OrderHistory.OrderHistoryPage.HandleImageAttach` | src/components/OrderHistory.tsx:12-35 | the orders become the log with all images attached in reading order, persisted once per image; no files means no write |
| `OrderHistory.OrderHistoryPage.AskRemoval` | src/components/OrderHistory.tsx:147 | the trash button records which image awaits confirmation |
| `OrderHistory.OrderHistoryPage.CancelRemoval` | src/components/OrderHistory.tsx:137 | declining clears the pending confirmation |
| `OrderHistory.OrderHistoryPage.HandleRemoveImage` | src/components/OrderHistory.tsx:37-51 | the orders become the log with the image removed, the log is persisted, the confirmation is cleared |
| `Checkout.CheckoutPage.constructor` | src/pages/Checkout.tsx:9-15 | the form starts empty and not processing |
| `Checkout.CheckoutPage.Render` | src/pages/Checkout.tsx:17-20 | the form is shown iff the cart has items; otherwise the page navigates home and writes nothing |
| `Checkout.CheckoutPage.HandleChange` | src/pages/Checkout.tsx:42-45 | a change updates only the named form field |
| `Checkout.CheckoutPage.HandleSubmit` | src/pages/Checkout.tsx:22-40 | the order carries the cart's items and total, the form and no images; the log becomes the order followed by the old log; the cart is cleared after the write, then the page navigates |
| `Checkout.CheckoutPage.CheckOut` | src/pages/Checkout.tsx:17-40 | an empty cart creates no order and only redirects; otherwise exactly one order is prepended and the clear follows the write |
| `CheckoutForm.CheckoutFormView.constructor` | src/components/CheckoutForm.tsx:10-18 | the form starts empty, not processing, with the given total |
| `CheckoutForm.CheckoutFormView.HandleChange` | src/components/CheckoutForm.tsx:39-42 | a change updates only the named form field |
| `CheckoutForm.CheckoutFormView.HandleSubmit` | src/components/CheckoutForm.tsx:20-37 | the order carries the cart's items but the `total` prop, the form and no images; it is prepended to the log, then completion is reported; the cart is never cleared |
| `OrdersManagement.FilteredOrders` | src/pages/admin/OrdersManagement.tsx:114-118 | the search result is an order-preserving subsequence holding an order iff its customer name, email or id contains the term, ignoring case, and each matching order as many times as the list does |
| `OrdersManagement.MatchesSearch` | src/pages/admin/OrdersManagement.tsx:115-117 | an order matches iff its lower-cased customer name, customer email or id contains the lower-cased term |
| `OrdersManagement.EmptySearchKeepsAllOrders` | src/pages/admin/OrdersManagement.tsx:114-118 | an empty search term lists every order |
| `OrdersManagement.AttachmentsAfterEdits` | src/pages/admin/OrdersManagement.tsx:227-233 | an attach always gives an order attachments; a removal takes them away iff it removes the only image or the list was empty |
| `OrdersManagement.HasAttachments` | src/pages/admin/OrdersManagement.tsx:227 | an order shows attachments iff its image list, absent counting as empty, is non-empty |
| `OrdersManagement.SearchAsWritten` | src/pages/admin/OrdersManagement.tsx:108-118 | searching the raw log fails iff some record is null or lacks customer details, and otherwise equals the search over the loaded orders |
| `OrdersManagement.CorruptRecordFailsSearch` | src/pages/admin/OrdersManagement.tsx:114-115 | a log of one null record, which the order history hides, makes the search as written fail |
| `OrdersManagement.Search` | src/pages/admin/OrdersManagement.tsx:114-118 | the corrected search is an order-preserving subsequence of the loaded orders, keeps each matching order as many times as it is loaded, and lists only stored well-formed matching orders and every one of them |
| `OrdersManagement.SearchAgreesOnCleanLogs` | src/pages/admin/OrdersManagement.tsx:108-118 | on a log with no corrupt record, the search as written and the corrected search agree |
| `OrdersManagement.LoadedAreStored` | src/components/OrderHistory.tsx:6-9 | every loaded order is a stored record, and every well-formed stored record is loaded |
| `App.InCategoryMembers` | src/App.tsx:37-40 | a group holds only books of its own category and every book of that category |
| `App.InCategory` | src/App.tsx:36-42 | a category's group is never longer than the catalog |
| `App.InCategoryIsFilter` | src/App.tsx:36-42 | a category's group equals the catalog filtered by that category, so it keeps catalog order and each book as many times as it occurs |
| `App.CategoriesOf` | src/App.tsx:36-45 | the group keys are the categories of the catalog, each once, in the order of their first book |
| `App.CategoriesAreThoseOfBooks` | src/App.tsx:36-42 | a category is a group key iff some book has it |
| `App.CategoriesDistinct` | src/App.tsx:36-42 | no category is a group key twice |
| `App.GroupBooks` | src/App.tsx:36-42 | the keys are the catalog's categories in first-seen order, and each group is the books of that category in catalog order |
| `App.GroupSizesSumToCatalog` | src/App.tsx:36-42 | the group sizes add up to the catalog size, so every book is in exactly one group |
| `App.DisplayedCategories` | src/App.tsx:44-46 | "All" displays every group key, any other selection exactly that category |
| `App.AllShowsEveryBook` | src/App.tsx:159-165 | with "All" selected every book is rendered under its own category |
| `App.CartBadge` | src/App.tsx:96-100 | the badge is shown iff the cart has a line item and shows the number of line items |
| `BookCard.AddToCart` | src/components/BookCard.tsx:13-18 | the add action carries the whole book and flags a pre-order iff the count is 0 |
| `BookCard.Label` | src/components/BookCard.tsx:51-61 | the label is "Preorder" iff the count is 0, else "Low stock" iff at most 5, else the count itself |
| `BookCard.PreOrderFlagMatchesLabel` | src/components/BookCard.tsx:16 | the card flags a pre-order exactly when it shows the pre-order label |
| `BookCard.LabelAgreesWithAdminStatus` | src/components/BookCard.tsx:51-61 | the card's label and the admin status column classify every count the same way |
| `Cart.DecrementAction` | src/components/Cart.tsx:52-55 | the minus button asks for max(0, q-1) of the same id, never a negative quantity |
| `Cart.IncrementAction` | src/components/Cart.tsx:62-65 | the plus button asks for q+1 of the same id |
| `Cart.RemoveAction` | src/components/Cart.tsx:72 | the remove button's payload is the line item's id |
| `Cart.CheckoutEnabled` | src/components/Cart.tsx:92 | the checkout button is enabled iff the cart has items, that is iff the header shows its cart badge |
| `Cart.ShowsEmptyMessage` | src/components/Cart.tsx:31-34 | the empty message is shown iff the cart has no items |
| `Cart.IncrementUndoesDecrement` | src/components/Cart.tsx:52-65 | for a line with at least one item, plus after minus asks for the original quantity |
| `Cart.EmptyMessageExcludesCheckout` | src/components/Cart.tsx:31-92 | checkout is enabled iff the cart has items iff the empty message is not shown |

## Left out

- The cart reducer of the cart context is not part of this model. How adding merges lines, how the total is recomputed and what clearing does are not modelled. The cart state is an input, and dispatched actions are only recorded in the effect trace.
- `localStorage` and JSON are reduced to two fields replaced wholesale. Text that fails to parse (which would throw) is not modelled. A missing `orders` key is the empty log.
- File reads are asynchronous and may finish in any order. The images of a multi-file attach are a parameter in the order their reads finish, each applied as one atomic step. A failed read also finishes, with a `null` result, and the source appends that `null` to the order's images. The model's images are strings, so a failed read is not represented.
- The one-second delay between writing the order and clearing the cart is modelled as immediate succession. The disabled "Processing..." button is only the `isProcessing` flag.
- Order ids (`crypto.randomUUID`), timestamps and the current date are parameters. Dates are day numbers, so "thirty days from now" is `today + 30`. Calendar arithmetic, ISO formatting and time zones are left out.
- The JavaScript test for a missing date also treats an empty-string date as missing. The model's optional date cannot hold an empty string, so that case is not represented.
- `parseInt` of the stock input can yield NaN. The new count is an integer, and the NaN case is not modelled.
- Prices and totals are integer cents. They are only copied, and `toFixed` formatting is left out.
- `toLowerCase` is modelled on ASCII letters only.
- Rendering, routing, styling, modal visibility beyond the selection state, the order details modal, the admin dashboard and the category filter component are left out. So is the static seed catalog, which is a constructor parameter.
- The book form's per-field `handleChange` is left out, including the `Number` conversion of price and count. So is the `description` field that the blank form carries, which is not part of the book type.
- JavaScript object keys are left out in two respects. Integer-like category names would come first among `Object.keys`. A category named after an inherited `Object.prototype` member (such as `constructor`) would be taken for an existing group, and the `push` onto it at src/App.tsx:40 would throw, so the catalog would fail to render.
- Selecting a category that has no books makes the group lookup undefined, which is a rendering failure and is not modelled. The category filter only offers the seeded categories.
- The shipping form's `required` checks are browser validation, so any strings are accepted.

## Findings

| source | as written | input that shows it | evidently intended | confidence | as-written member | corrected member |
|---|---|---|---|---|---|---|
| src/pages/admin/OrdersManagement.tsx:108-118 | the admin page parses the stored order log without the shape check and the search reads `customerDetails.name` of every record | a stored log containing `null` or a record without `customerDetails` (which the order history silently hides) makes the filter callback throw | search only the orders that pass the order history's load check (src/components/OrderHistory.tsx:6-9) | medium, not executed | `OrdersManagement.SearchAsWritten` (`OrdersManagement.CorruptRecordFailsSearch`) | `OrdersManagement.Search` |
