/** The shopper's order history: the defensive load of the order log, attaching images to an order
    and removing them again, with the rule that an emptied image list becomes absent. */
module OrderHistory {
  import opened Model
  import opened Seqs
  import opened Host

  /** The initial load: exactly the well-formed records, in stored order, read as orders. */
  function LoadOrders(stored: seq<StoredRecord>): (r: seq<Order>)
    ensures StoreAll(r) == Filter(stored, IsWellFormed)
    ensures |r| <= |stored|
  {
    if stored == [] then []
    else if IsWellFormed(stored[0]) then [AsOrder(stored[0])] + LoadOrders(stored[1..])
    else LoadOrders(stored[1..])
  }

  /** Writing a log of orders and loading it again gives back the same orders: nothing well-formed is
      ever dropped. */
  lemma {:induction false} LoadAfterStore(orders: seq<Order>)
    ensures LoadOrders(StoreAll(orders)) == orders
  {
    if orders != [] {
      var s := StoreAll(orders);
      assert s[1..] == StoreAll(orders[1..]);
      LoadAfterStore(orders[1..]);
    }
  }

  /** A record prepended by checkout is the first order the history shows, ahead of the older ones. */
  lemma LoadAfterPrepend(o: Order, stored: seq<StoredRecord>)
    ensures LoadOrders([Stored(o)] + stored) == [o] + LoadOrders(stored)
  {
    assert ([Stored(o)] + stored)[1..] == stored;
  }

  /** The image list of one order after an attach: the image appended, the list created if absent. */
  function WithImage(o: Order, image: string): (r: Order)
    ensures r.attachedImages == Some(ImagesOf(o) + [image])
    ensures |ImagesOf(r)| == |ImagesOf(o)| + 1
    ensures r.(attachedImages := o.attachedImages) == o
  {
    o.(attachedImages := Some(ImagesOf(o) + [image]))
  }

  /** One attach step: every order with the id gets the image, the others are kept. */
  function AttachImage(orders: seq<Order>, orderId: string, image: string): (r: seq<Order>)
    ensures |r| == |orders|
    ensures forall i :: 0 <= i < |orders| && orders[i].id == orderId ==> r[i] == WithImage(orders[i], image)
    ensures forall i :: 0 <= i < |orders| && orders[i].id != orderId ==> r[i] == orders[i]
  {
    MapWhere(orders, (o: Order) => o.id == orderId, (o: Order) => WithImage(o, image))
  }

  /** Several attach steps, one per image, in the order the images were read. */
  function AttachAll(orders: seq<Order>, orderId: string, images: seq<string>): (r: seq<Order>)
    ensures |r| == |orders|
    decreases |images|
  {
    if images == [] then orders
    else AttachImage(AttachAll(orders, orderId, images[..|images| - 1]), orderId, images[|images| - 1])
  }

  /** Attaching one image more: the last image is attached to the log the others produced. */
  lemma AttachAllStep(orders: seq<Order>, orderId: string, images: seq<string>, k: nat)
    requires k < |images|
    ensures AttachAll(orders, orderId, images[..k + 1]) == AttachImage(AttachAll(orders, orderId, images[..k]), orderId, images[k])
  {
    assert images[..k + 1][..k] == images[..k];
  }

  /** After several attach steps, each order with the id has all the images appended after its own,
      in reading order; every other order is unchanged. */
  lemma {:induction false} AttachAllAppends(orders: seq<Order>, orderId: string, images: seq<string>, i: nat)
    requires i < |orders|
    ensures orders[i].id == orderId && images != [] ==>
      AttachAll(orders, orderId, images)[i] == orders[i].(attachedImages := Some(ImagesOf(orders[i]) + images))
    ensures orders[i].id != orderId || images == [] ==> AttachAll(orders, orderId, images)[i] == orders[i]
    decreases |images|
  {
    if images != [] {
      var prefix, last := images[..|images| - 1], images[|images| - 1];
      var before := AttachAll(orders, orderId, prefix);
      var after := AttachAll(orders, orderId, images);
      AttachAllAppends(orders, orderId, prefix, i);
      assert after == AttachImage(before, orderId, last);
      assert after[i] == if before[i].id == orderId then WithImage(before[i], last) else before[i];
      if orders[i].id == orderId {
        var imgs := ImagesOf(orders[i]);
        assert ImagesOf(before[i]) == imgs + prefix;
        assert imgs + images == (imgs + prefix) + [last] by {
          assert images == prefix + [last];
        }
      }
    }
  }


  /** `filter((_, i) => i !== index)`: the list without the position `index`; an index outside the
      list removes nothing. */
  function DropIndex(s: seq<string>, index: int): (r: seq<string>)
    ensures 0 <= index < |s| ==> r == s[..index] + s[index + 1..]
    ensures !(0 <= index < |s|) ==> r == s
    decreases |s|
  {
    if s == [] then []
    else if index == 0 then s[1..]
    else [s[0]] + DropIndex(s[1..], index - 1)
  }

  /** The image list of one order after a removal. An order without a list is left alone; otherwise the
      position is dropped and a list left empty becomes absent. */
  function WithoutImage(o: Order, index: int): (r: Order)
    ensures r.(attachedImages := o.attachedImages) == o
    ensures r.attachedImages != Some([])
    ensures o.attachedImages.None? ==> r == o
    ensures o.attachedImages == Some([]) ==> r.attachedImages == None
    ensures o.attachedImages.Some? && 0 <= index < |ImagesOf(o)| ==>
      ImagesOf(r) == ImagesOf(o)[..index] + ImagesOf(o)[index + 1..]
    ensures o.attachedImages.Some? && ImagesOf(o) != [] && !(0 <= index < |ImagesOf(o)|) ==> r == o
  {
    match o.attachedImages
    case None => o
    case Some(images) =>
      var rest := DropIndex(images, index);
      o.(attachedImages := if |rest| > 0 then Some(rest) else None)
  }

  /** `handleRemoveImage`'s new list: orders with the id and an image list lose the image; the others
      are kept. */
  function RemoveImage(orders: seq<Order>, orderId: string, index: int): (r: seq<Order>)
    ensures |r| == |orders|
    ensures forall i :: 0 <= i < |orders| && orders[i].id == orderId ==> r[i] == WithoutImage(orders[i], index)
    ensures forall i :: 0 <= i < |orders| && orders[i].id != orderId ==> r[i] == orders[i]
  {
    MapWhere(orders, (o: Order) => o.id == orderId && o.attachedImages.Some?, (o: Order) => WithoutImage(o, index))
  }

  /** Removing the image just attached restores the order, unless it started from an empty list (which
      the removal normalises to absent). */
  lemma AttachThenRemove(o: Order, image: string)
    requires o.attachedImages != Some([])
    ensures WithoutImage(WithImage(o, image), |ImagesOf(o)|) == o
  {
    var images := ImagesOf(o);
    assert DropIndex(images + [image], |images|) == images by {
      assert (images + [image])[..|images|] == images;
    }
    if images == [] {
      assert o.attachedImages == None;
    }
  }

  /** On the log: attaching one image to orders without images and removing position 0 leaves the
      image lists absent again, never empty. */
  lemma AttachThenRemoveFirst(orders: seq<Order>, orderId: string, image: string)
    requires forall i :: 0 <= i < |orders| && orders[i].id == orderId ==> orders[i].attachedImages == None
    ensures RemoveImage(AttachImage(orders, orderId, image), orderId, 0) == orders
  {
    var r := RemoveImage(AttachImage(orders, orderId, image), orderId, 0);
    forall i | 0 <= i < |orders| ensures r[i] == orders[i] {
      if orders[i].id == orderId {
        AttachThenRemove(orders[i], image);
      }
    }
  }

  /** The page's state: the loaded orders and the image whose removal awaits confirmation. */
  class OrderHistoryPage {
    var orders: seq<Order>
    var confirmingRemoval: Option<(string, int)>
    const host: Host

    constructor (host: Host)
      ensures this.host == host
      ensures orders == LoadOrders(host.storedOrders) && confirmingRemoval == None
    {
      this.host := host;
      orders := LoadOrders(host.storedOrders);
      confirmingRemoval := None;
    }

    /** One finished read: the image is attached and the whole log written back. */
    method AttachOne(orderId: string, image: string)
      modifies this`orders, host
      ensures orders == AttachImage(old(orders), orderId, image)
      ensures host.storedOrders == StoreAll(orders)
      ensures host.storedBooks == old(host.storedBooks)
      ensures host.trace == old(host.trace) + [OrdersWritten]
    {
      orders := AttachImage(orders, orderId, image);
      host.WriteOrders(StoreAll(orders));
    }

    /** Files chosen for an order: each image, once read, is attached and the log is persisted. The
        images come in the order their reads finish, and each is one atomic step. */
    method HandleImageAttach(orderId: string, images: seq<string>)
      modifies this`orders, host
      ensures orders == AttachAll(old(orders), orderId, images)
      ensures host.storedOrders == if images == [] then old(host.storedOrders) else StoreAll(orders)
      ensures host.storedBooks == old(host.storedBooks)
      ensures host.trace == old(host.trace) + Repeat(OrdersWritten, |images|)
    {
      for k := 0 to |images|
        invariant orders == AttachAll(old(orders), orderId, images[..k])
        invariant host.storedOrders == if k == 0 then old(host.storedOrders) else StoreAll(orders)
        invariant host.storedBooks == old(host.storedBooks)
        invariant host.trace == old(host.trace) + Repeat(OrdersWritten, k)
      {
        AttachAllStep(old(orders), orderId, images, k);
        AttachOne(orderId, images[k]);
      }
      assert images[..|images|] == images;
    }

    /** The trash button of an image: ask for confirmation. */
    method AskRemoval(orderId: string, index: int)
      modifies this`confirmingRemoval
      ensures confirmingRemoval == Some((orderId, index))
    {
      confirmingRemoval := Some((orderId, index));
    }

    method CancelRemoval()
      modifies this`confirmingRemoval
      ensures confirmingRemoval == None
    {
      confirmingRemoval := None;
    }

    /** A confirmed removal: the image is dropped, the log is persisted, the confirmation is closed. */
    method HandleRemoveImage(orderId: string, index: int)
      modifies this`orders, this`confirmingRemoval, host
      ensures orders == RemoveImage(old(orders), orderId, index)
      ensures host.storedOrders == StoreAll(orders) && host.storedBooks == old(host.storedBooks)
      ensures host.trace == old(host.trace) + [OrdersWritten]
      ensures confirmingRemoval == None
    {
      orders := RemoveImage(orders, orderId, index);
      host.WriteOrders(StoreAll(orders));
      confirmingRemoval := None;
    }
  }
}
