/**
 * `/api/menu`: list a vendor's items, add an item, change an item, delete
 * an item. Only POST checks the price; PATCH stores whatever it is given.
 */
module MenuApi {
  import opened Basics
  import opened Seqs
  import opened Types
  import opened Db
  import opened Http

  /** The `price` field of a POST body: absent, a number, or some other JSON value (null, a string, ...). */
  datatype PriceField = Undefined | Number(value: int) | NotANumber

  datatype PostBody = PostBody(
    vendorId: Option<string>, name: Option<string>, price: PriceField,
    category: Option<string>, isAvailable: Option<bool>)

  /** The fields PATCH reads; None is a field that is absent. */
  datatype PatchBody = PatchBody(
    id: Option<string>, name: Option<string>, price: Option<int>,
    category: Option<string>, isAvailable: Option<bool>)

  const NotFound := Reply(404, Failure("Item not found"))

  ghost predicate PricesNonNegative(items: seq<MenuItem>) {
    forall j :: 0 <= j < |items| ==> items[j].price >= 0
  }

  /**
   * The checks POST makes, in order: required fields, where a price of 0 counts
   * as given (400), then a price that is a non-negative number (400). None
   * means the item is created.
   */
  function PostRejection(b: PostBody): (r: Option<Reply>)
    ensures r.None? <==>
      Truthy(b.vendorId) && Truthy(b.name) && Truthy(b.category) && b.price.Number? && b.price.value >= 0
    ensures r.Some? ==> r.value.status == 400
  {
    if !Truthy(b.vendorId) || !Truthy(b.name) || b.price.Undefined? || !Truthy(b.category) then
      Some(Reply(400, Failure("Missing required fields")))
    else if !b.price.Number? || b.price.value < 0 then Some(Reply(400, Failure("Invalid price")))
    else None
  }

  /** What POST hands to `createMenuItem`; `isAvailable ?? true`. */
  function FieldsOf(b: PostBody): ItemFields
    requires PostRejection(b).None?
  {
    ItemFields(b.vendorId.value, b.name.value, b.price.value, b.category.value, None,
               if b.isAvailable.Some? then b.isAvailable.value else true)
  }

  /** A created item is available unless the body said false, and its price is never negative. */
  lemma PostedItem(b: PostBody)
    requires PostRejection(b).None?
    ensures FieldsOf(b).price >= 0
    ensures FieldsOf(b).isAvailable <==> b.isAvailable != Some(false)
  {
  }

  /** `{ ...(name && { name }), ...(price !== undefined && { price }), ... }` */
  function PatchOf(b: PatchBody): ItemPatch {
    ItemPatch(
      if Truthy(b.name) then b.name else None,
      b.price,
      if Truthy(b.category) then b.category else None,
      None,
      b.isAvailable)
  }

  /**
   * PATCH applies an empty name or category not at all, but a price of 0,
   * a negative price and `isAvailable: false` as given.
   */
  lemma PatchFields(item: MenuItem, b: PatchBody)
    ensures var r := ApplyItemPatch(item, PatchOf(b));
      && r.id == item.id && r.vendorId == item.vendorId && r.createdAt == item.createdAt
      && r.image == item.image
      && r.name == (if Truthy(b.name) then b.name.value else item.name)
      && r.category == (if Truthy(b.category) then b.category.value else item.category)
      && r.price == (if b.price.Some? then b.price.value else item.price)
      && r.isAvailable == (if b.isAvailable.Some? then b.isAvailable.value else item.isAvailable)
  {
  }

  /** POST keeps every stored price non-negative. */
  lemma PostKeepsPrices(items: seq<MenuItem>, b: PostBody, item: MenuItem)
    requires PricesNonNegative(items)
    requires PostRejection(b).None? && item.price == FieldsOf(b).price
    ensures PricesNonNegative(items + [item])
  {
    var after := items + [item];
    assert forall j :: 0 <= j < |items| ==> after[j] == items[j];
  }

  /** PATCH does not: a stored price can be made negative. */
  lemma PatchBreaksPrices(item: MenuItem)
    requires item.price >= 0
    ensures var b := PatchBody(Some(item.id), None, Some(-1), None, None);
      && PricesNonNegative([item])
      && IndexOfKey([item], ItemKey, item.id) == Some(0)
      && !PricesNonNegative([item][0 := ApplyItemPatch(item, PatchOf(b))])
  {
    var b := PatchBody(Some(item.id), None, Some(-1), None, None);
    var after := [item][0 := ApplyItemPatch(item, PatchOf(b))];
    assert after[0].price == -1;
  }

  /** `GET /api/menu?vendorId=…`: exactly that vendor's items, in stored order. */
  method Get(store: Store, vendorId: Option<string>) returns (reply: Reply)
    ensures !Truthy(vendorId) ==> reply == Reply(400, Failure("Vendor ID required"))
    ensures Truthy(vendorId) ==>
      reply == Reply(200, ItemList(KeepByKey(store.Items(), OwnerKey, vendorId.value)))
    ensures Truthy(vendorId) ==>
      forall x :: x in reply.payload.items <==> x in store.Items() && x.vendorId == vendorId.value
  {
    if !Truthy(vendorId) {
      return Reply(400, Failure("Vendor ID required"));
    }
    var items := store.GetMenuItems(vendorId);
    ItemsOfMeans(store.Items(), vendorId);
    reply := Reply(200, ItemList(items));
  }

  /** `POST /api/menu`; the vendor id is not checked against the vendors. */
  method Post(store: Store, body: Body<PostBody>, stamp: nat, suffix: string, createdAt: string)
    returns (reply: Reply)
    modifies store
    ensures store.vendorsFile == old(store.vendorsFile)
    ensures body.Unparsable? ==> reply == InternalError && store.itemsFile == old(store.itemsFile)
    ensures body.Parsed? && PostRejection(body.fields).Some? ==>
      reply == PostRejection(body.fields).value && store.itemsFile == old(store.itemsFile)
    ensures body.Parsed? && PostRejection(body.fields).None? ==>
      var f := FieldsOf(body.fields);
      var item := MenuItem(NewId("item_", stamp, suffix), f.vendorId, f.name, f.price,
                           f.category, f.image, f.isAvailable, createdAt);
      reply == Reply(201, ItemRecord(item)) && store.itemsFile == Holds(old(store.Items()) + [item])
  {
    if body.Unparsable? {
      return InternalError;
    }
    var b := body.fields;
    if !Truthy(b.vendorId) || !Truthy(b.name) || b.price.Undefined? || !Truthy(b.category) {
      return Reply(400, Failure("Missing required fields"));
    }
    if !b.price.Number? || b.price.value < 0 {
      return Reply(400, Failure("Invalid price"));
    }
    var item := store.CreateMenuItem(FieldsOf(b), stamp, suffix, createdAt);
    reply := Reply(201, ItemRecord(item));
  }

  /** `PATCH /api/menu`; the new price is not checked. */
  method Patch(store: Store, body: Body<PatchBody>) returns (reply: Reply)
    modifies store
    ensures store.vendorsFile == old(store.vendorsFile)
    ensures body.Unparsable? ==> reply == InternalError && store.itemsFile == old(store.itemsFile)
    ensures body.Parsed? && !Truthy(body.fields.id) ==>
      reply == Reply(400, Failure("Item ID required")) && store.itemsFile == old(store.itemsFile)
    ensures (body.Parsed? && Truthy(body.fields.id)
             && IndexOfKey(old(store.Items()), ItemKey, body.fields.id.value).None?) ==>
      reply == NotFound && store.itemsFile == old(store.itemsFile)
    ensures (body.Parsed? && Truthy(body.fields.id)
             && IndexOfKey(old(store.Items()), ItemKey, body.fields.id.value).Some?) ==>
      var i := IndexOfKey(old(store.Items()), ItemKey, body.fields.id.value).value;
      var item := ApplyItemPatch(old(store.Items())[i], PatchOf(body.fields));
      reply == Reply(200, ItemRecord(item)) && store.itemsFile == Holds(old(store.Items())[i := item])
  {
    if body.Unparsable? {
      return InternalError;
    }
    var b := body.fields;
    if !Truthy(b.id) {
      return Reply(400, Failure("Item ID required"));
    }
    var item := store.UpdateMenuItem(b.id.value, PatchOf(b));
    if item.None? {
      return NotFound;
    }
    reply := Reply(200, ItemRecord(item.value));
  }

  /** `DELETE /api/menu?id=…` */
  method Delete(store: Store, id: Option<string>) returns (reply: Reply)
    modifies store
    ensures store.vendorsFile == old(store.vendorsFile)
    ensures !Truthy(id) ==> reply == Reply(400, Failure("Item ID required")) && store.itemsFile == old(store.itemsFile)
    ensures Truthy(id) ==>
      (reply.status == 404 <==> forall j :: 0 <= j < |old(store.Items())| ==> old(store.Items())[j].id != id.value)
    ensures Truthy(id) && reply.status == 404 ==> reply == NotFound && store.itemsFile == old(store.itemsFile)
    ensures Truthy(id) && reply.status != 404 ==>
      reply == Reply(200, Deleted) && store.itemsFile == Holds(DropByKey(old(store.Items()), ItemKey, id.value))
    ensures Truthy(id) ==> forall j :: 0 <= j < |store.Items()| ==> store.Items()[j].id != id.value
  {
    if !Truthy(id) {
      return Reply(400, Failure("Item ID required"));
    }
    var success := store.DeleteMenuItem(id.value);
    if !success {
      return NotFound;
    }
    reply := Reply(200, Deleted);
  }
}
