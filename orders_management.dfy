/** The admin orders page: a read-only view of the order log with a case-insensitive search and an
    "has attachments" column.

    The page reads the stored log without the shape check of the order history, so its search is
    modelled twice: as written (a malformed record makes the search fail) and corrected (the search
    runs over the orders the order history would load). */
module OrdersManagement {
  import opened Model
  import opened Seqs
  import opened Text
  import opened OrderHistory

  /** The search test: the term occurs, ignoring case, in the customer's name or email or the order id. */
  predicate MatchesSearch(o: Order, term: string)
  {
    ContainsIgnoringCase(o.customerDetails.name, term)
      || ContainsIgnoringCase(o.customerDetails.email, term)
      || ContainsIgnoringCase(o.id, term)
  }

  /** `filteredOrders`: the matching orders, in log order. */
  function FilteredOrders(orders: seq<Order>, term: string): (r: seq<Order>)
    ensures IsSubsequence(r, orders)
    ensures forall x :: multiset(r)[x] == if MatchesSearch(x, term) then multiset(orders)[x] else 0
    ensures forall i :: 0 <= i < |r| ==> r[i] in orders && MatchesSearch(r[i], term)
    ensures forall i :: 0 <= i < |orders| && MatchesSearch(orders[i], term) ==> orders[i] in r
  {
    Filter(orders, (o: Order) => MatchesSearch(o, term))
  }

  /** An empty search term lists every order. */
  lemma EmptySearchKeepsAllOrders(orders: seq<Order>)
    ensures FilteredOrders(orders, "") == orders
  {
    forall i | 0 <= i < |orders| ensures MatchesSearch(orders[i], "") {
      EmptyNeedle(orders[i].customerDetails.name);
    }
    FilterKeepsAll(orders, (o: Order) => MatchesSearch(o, ""));
  }

  /** The attachments column: a list that is present and non-empty. */
  predicate HasAttachments(o: Order)
    ensures HasAttachments(o) <==> ImagesOf(o) != []
  {
    o.attachedImages.Some? && |o.attachedImages.value| > 0
  }

  /** An attach always gives the order attachments; a removal takes them away exactly when it removes
      the only image (or the list was already empty). */
  lemma AttachmentsAfterEdits(o: Order, image: string, index: int)
    ensures HasAttachments(WithImage(o, image))
    ensures o.attachedImages.Some? ==>
      (!HasAttachments(WithoutImage(o, index)) <==> ImagesOf(o) == [] || (|ImagesOf(o)| == 1 && index == 0))
  {
    if o.attachedImages.Some? && |ImagesOf(o)| == 1 && index == 0 {
      assert ImagesOf(o)[1..] == [];
    }
  }

  /** Some record of the log is `null` or lacks its customer details. */
  predicate HasCorruptRecord(stored: seq<StoredRecord>)
  {
    exists i :: 0 <= i < |stored| && !IsWellFormed(stored[i])
  }

  /** A log has a corrupt record exactly when its head or its tail has one. */
  lemma CorruptRecordSplit(stored: seq<StoredRecord>)
    requires stored != []
    ensures HasCorruptRecord(stored) <==> !IsWellFormed(stored[0]) || HasCorruptRecord(stored[1..])
  {
    if HasCorruptRecord(stored) && IsWellFormed(stored[0]) {
      var i :| 0 <= i < |stored| && !IsWellFormed(stored[i]);
      assert stored[1..][i - 1] == stored[i];
    }
    if HasCorruptRecord(stored[1..]) {
      var i :| 0 <= i < |stored[1..]| && !IsWellFormed(stored[1..][i]);
      assert stored[i + 1] == stored[1..][i];
    }
  }

  /** Searching the loaded log of a log with a well-formed head: the head, if it matches, then the
      search over the rest. */
  lemma SearchLoadedStep(stored: seq<StoredRecord>, term: string)
    requires stored != [] && IsWellFormed(stored[0])
    ensures FilteredOrders(LoadOrders(stored), term)
      == (if MatchesSearch(AsOrder(stored[0]), term) then [AsOrder(stored[0])] else []) + FilteredOrders(LoadOrders(stored[1..]), term)
  {
    var o, rest := AsOrder(stored[0]), LoadOrders(stored[1..]);
    assert LoadOrders(stored) == [o] + rest;
    assert ([o] + rest)[1..] == rest;
  }

  /** The search as written: the log is searched as stored, and a record that is `null` or lacks its
      customer details makes the search test throw, which `None` stands for. */
  function SearchAsWritten(stored: seq<StoredRecord>, term: string): (r: Option<seq<Order>>)
    ensures r.None? <==> HasCorruptRecord(stored)
    ensures r.Some? ==> r.value == FilteredOrders(LoadOrders(stored), term)
  {
    if stored == [] then Some([])
    else
      CorruptRecordSplit(stored);
      if !IsWellFormed(stored[0]) then None
      else
        match SearchAsWritten(stored[1..], term)
        case None => None
        case Some(rest) =>
          var o := AsOrder(stored[0]);
          SearchLoadedStep(stored, term);
          Some((if MatchesSearch(o, term) then [o] else []) + rest)
  }

  /** A log holding one corrupt record, which the order history hides, fails the search as written. */
  lemma CorruptRecordFailsSearch()
    ensures SearchAsWritten([Null], "") == None
    ensures LoadOrders([Null]) == []
  {
    assert !IsWellFormed([Null][0]);
  }

  /** The search as evidently intended: over the orders the order history loads. It never fails, keeps
      the log order and each matching order as often as it is loaded, lists only stored well-formed
      records that match, and lists every one of them. */
  function Search(stored: seq<StoredRecord>, term: string): (r: seq<Order>)
    ensures IsSubsequence(r, LoadOrders(stored))
    ensures forall x :: multiset(r)[x] == if MatchesSearch(x, term) then multiset(LoadOrders(stored))[x] else 0
    ensures forall i :: 0 <= i < |r| ==> Stored(r[i]) in stored && MatchesSearch(r[i], term)
    ensures forall i :: 0 <= i < |stored| && IsWellFormed(stored[i]) && MatchesSearch(AsOrder(stored[i]), term) ==>
      AsOrder(stored[i]) in r
  {
    var loaded := LoadOrders(stored);
    LoadedAreStored(stored);
    FilteredOrders(loaded, term)
  }

  /** Where the search as written does not fail, it agrees with the corrected one. */
  lemma SearchAgreesOnCleanLogs(stored: seq<StoredRecord>, term: string)
    requires !HasCorruptRecord(stored)
    ensures SearchAsWritten(stored, term) == Some(Search(stored, term))
  {
  }

  /** The loaded orders are exactly the well-formed stored records. */
  lemma LoadedAreStored(stored: seq<StoredRecord>)
    ensures forall i :: 0 <= i < |LoadOrders(stored)| ==> Stored(LoadOrders(stored)[i]) in stored
    ensures forall i :: 0 <= i < |stored| && IsWellFormed(stored[i]) ==> AsOrder(stored[i]) in LoadOrders(stored)
  {
    var loaded := LoadOrders(stored);
    var kept := Filter(stored, IsWellFormed);
    assert StoreAll(loaded) == kept;
    forall i | 0 <= i < |loaded| ensures Stored(loaded[i]) in stored {
      assert StoreAll(loaded)[i] == Stored(loaded[i]);
    }
    forall i | 0 <= i < |stored| && IsWellFormed(stored[i]) ensures AsOrder(stored[i]) in loaded {
      assert stored[i] in kept;
      var j :| 0 <= j < |kept| && kept[j] == stored[i];
      assert Stored(loaded[j]) == stored[i];
    }
  }
}
