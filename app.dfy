/** The storefront shell: the catalog grouped by category, the categories shown for the selected
    filter, and the cart badge in the header. */
module App {
  import opened Model
  import Seqs

  /** The books of one category, in catalog order. */
  function InCategory(books: seq<Book>, category: string): (r: seq<Book>)
    ensures |r| <= |books|
  {
    if books == [] then []
    else
      var last := books[|books| - 1];
      InCategory(books[..|books| - 1], category) + (if last.category == category then [last] else [])
  }

  /** A group is the catalog filtered by the category test, so it keeps catalog order and each book
      as many times as it occurs. */
  lemma {:induction false} InCategoryIsFilter(books: seq<Book>, category: string)
    ensures InCategory(books, category) == Seqs.Filter(books, (b: Book) => b.category == category)
  {
    if books != [] {
      var init, last := books[..|books| - 1], books[|books| - 1];
      InCategoryIsFilter(init, category);
      Seqs.SplitLast(books);
      Seqs.FilterSnoc(init, last, (b: Book) => b.category == category);
    }
  }

  /** A group holds books of its own category only, and every book of that category. */
  lemma {:induction false} InCategoryMembers(books: seq<Book>, category: string)
    ensures forall b :: b in InCategory(books, category) ==> b in books && b.category == category
    ensures forall j :: 0 <= j < |books| && books[j].category == category ==> books[j] in InCategory(books, category)
  {
    if books != [] {
      var init, last := books[..|books| - 1], books[|books| - 1];
      InCategoryMembers(init, category);
      assert books == init + [last];
      forall j | 0 <= j < |books| && books[j].category == category
        ensures books[j] in InCategory(books, category)
      {
        if j < |init| {
          assert books[j] == init[j];
        }
      }
    }
  }

  lemma InCategoryExtend(books: seq<Book>, i: nat, c: string)
    requires i < |books|
    ensures InCategory(books[..i + 1], c) == InCategory(books[..i], c) + (if books[i].category == c then [books[i]] else [])
  {
    assert books[..i + 1][..i] == books[..i];
  }

  /** The categories of the catalog, each once, in the order of their first book: the order in which
      the grouping creates its keys. */
  function CategoriesOf(books: seq<Book>): seq<string>
  {
    if books == [] then []
    else
      var known := CategoriesOf(books[..|books| - 1]);
      var c := books[|books| - 1].category;
      if c in known then known else known + [c]
  }

  /** A category is a key exactly when some book has it. */
  lemma {:induction false} CategoriesAreThoseOfBooks(books: seq<Book>, c: string)
    ensures c in CategoriesOf(books) <==> exists j :: 0 <= j < |books| && books[j].category == c
  {
    if books != [] {
      var init := books[..|books| - 1];
      CategoriesAreThoseOfBooks(init, c);
      if c in CategoriesOf(init) {
        var j :| 0 <= j < |init| && init[j].category == c;
        assert books[j].category == c;
      }
      if exists j :: 0 <= j < |books| && books[j].category == c {
        var j :| 0 <= j < |books| && books[j].category == c;
        if j < |init| {
          assert init[j].category == c;
        }
      }
    }
  }

  /** A category that is not a key has an empty group. */
  lemma {:induction false} InCategoryOfAbsent(books: seq<Book>, c: string)
    requires c !in CategoriesOf(books)
    ensures InCategory(books, c) == []
  {
    if books != [] {
      var init := books[..|books| - 1];
      assert CategoriesOf(books) == CategoriesOf(init) || CategoriesOf(books) == CategoriesOf(init) + [books[|books| - 1].category];
      InCategoryOfAbsent(init, c);
    }
  }

  /** No category is a key twice. */
  lemma {:induction false} CategoriesDistinct(books: seq<Book>)
    ensures forall i, j :: 0 <= i < j < |CategoriesOf(books)| ==> CategoriesOf(books)[i] != CategoriesOf(books)[j]
  {
    if books != [] {
      CategoriesDistinct(books[..|books| - 1]);
    }
  }

  /** `books.reduce(...)`: a group per category, created when its first book is met, and every book
      pushed onto its own category's group. */
  method GroupBooks(books: seq<Book>) returns (keys: seq<string>, groups: map<string, seq<Book>>)
    ensures keys == CategoriesOf(books)
    ensures forall c :: c in groups <==> c in keys
    ensures forall c :: c in groups ==> groups[c] == InCategory(books, c)
  {
    keys, groups := [], map[];
    for i := 0 to |books|
      invariant keys == CategoriesOf(books[..i])
      invariant forall c :: c in groups <==> c in keys
      invariant forall c :: c in groups ==> groups[c] == InCategory(books[..i], c)
    {
      var book := books[i];
      assert books[..i + 1][..i] == books[..i];
      ghost var before := groups;
      if book.category !in groups {
        groups := groups[book.category := []];
        keys := keys + [book.category];
      }
      groups := groups[book.category := groups[book.category] + [book]];
      forall c | c in groups
        ensures groups[c] == InCategory(books[..i + 1], c)
      {
        InCategoryExtend(books, i, c);
        if c !in before {
          InCategoryOfAbsent(books[..i], c);
        }
      }
    }
    assert books[..|books|] == books;
  }

  /** The total size of the groups listed under `keys`. */
  function GroupSizes(books: seq<Book>, keys: seq<string>): nat
  {
    if keys == [] then 0 else |InCategory(books, keys[0])| + GroupSizes(books, keys[1..])
  }

  function Occurrences(keys: seq<string>, c: string): nat
  {
    if keys == [] then 0 else (if keys[0] == c then 1 else 0) + Occurrences(keys[1..], c)
  }

  lemma {:induction false} GroupSizesStep(init: seq<Book>, last: Book, keys: seq<string>)
    ensures GroupSizes(init + [last], keys) == GroupSizes(init, keys) + Occurrences(keys, last.category)
  {
    if keys != [] {
      assert (init + [last])[..|init + [last]| - 1] == init;
      GroupSizesStep(init, last, keys[1..]);
    }
  }

  lemma {:induction false} GroupSizesAppend(books: seq<Book>, keys: seq<string>, c: string)
    ensures GroupSizes(books, keys + [c]) == GroupSizes(books, keys) + |InCategory(books, c)|
  {
    if keys != [] {
      assert (keys + [c])[1..] == keys[1..] + [c];
      GroupSizesAppend(books, keys[1..], c);
    } else {
      assert ([] + [c])[1..] == [];
    }
  }

  lemma {:induction false} OccurrencesDistinct(keys: seq<string>, c: string)
    requires forall i, j :: 0 <= i < j < |keys| ==> keys[i] != keys[j]
    ensures Occurrences(keys, c) == if c in keys then 1 else 0
  {
    if keys != [] {
      OccurrencesDistinct(keys[1..], c);
      if keys[0] == c {
        assert c !in keys[1..] by {
          forall j | 0 <= j < |keys[1..]| ensures keys[1..][j] != c {
            assert keys[1..][j] == keys[j + 1];
          }
        }
      }
    }
  }

  /** Every book lands in exactly one group: the group sizes add up to the catalog size. */
  lemma {:induction false} GroupSizesSumToCatalog(books: seq<Book>)
    ensures GroupSizes(books, CategoriesOf(books)) == |books|
  {
    if books != [] {
      var init, last := books[..|books| - 1], books[|books| - 1];
      var known := CategoriesOf(init);
      assert books == init + [last];
      GroupSizesSumToCatalog(init);
      GroupSizesStep(init, last, CategoriesOf(books));
      CategoriesDistinct(books);
      OccurrencesDistinct(CategoriesOf(books), last.category);
      if last.category !in known {
        CategoriesDistinct(init);
        OccurrencesDistinct(known, last.category);
        GroupSizesAppend(init, known, last.category);
        InCategoryOfAbsent(init, last.category);
      }
    }
  }

  /** The category filter: every category, or the one selected. */
  datatype Selection = All | Only(category: string)

  /** The categories whose groups are rendered. */
  function DisplayedCategories(selected: Selection, keys: seq<string>): (r: seq<string>)
    ensures selected.All? ==> r == keys
    ensures selected.Only? ==> r == [selected.category]
  {
    match selected
    case All => keys
    case Only(c) => [c]
  }

  /** With "All" selected, every book of the catalog is rendered, under its own category. */
  lemma AllShowsEveryBook(books: seq<Book>, j: nat)
    requires j < |books|
    ensures books[j].category in DisplayedCategories(All, CategoriesOf(books))
    ensures books[j] in InCategory(books, books[j].category)
  {
    CategoriesAreThoseOfBooks(books, books[j].category);
    InCategoryMembers(books, books[j].category);
  }

  /** The header's cart badge: shown with the number of line items when there is at least one. */
  function CartBadge(cart: CartState): (r: Option<nat>)
    ensures r.Some? <==> |cart.items| > 0
    ensures r.Some? ==> r.value == |cart.items|
  {
    if |cart.items| > 0 then Some(|cart.items|) else None
  }
}
