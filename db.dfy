/**
 * The data store: two JSON files, one holding the vendors and one the menu
 * items, each read whole, changed in memory and written back whole.
 */
module Db {
  import opened Basics
  import opened Seqs
  import opened Strings
  import opened Types

  /**
   * What a collection file holds, as far as reading it goes: nothing (the
   * file does not exist), something that does not parse, or a list of records.
   */
  datatype JsonFile<T> = Missing | Unparsable | Holds(records: seq<T>)

  /** `readJSONFile`: a missing or unreadable file reads as the empty list. */
  function Load<T>(f: JsonFile<T>): seq<T> {
    if f.Holds? then f.records else []
  }

  // ----- keys -----

  function VendorKey(v: Vendor): string { v.id }
  function SubdomainKey(v: Vendor): string { v.subdomain }
  function ItemKey(item: MenuItem): string { item.id }
  function OwnerKey(item: MenuItem): string { item.vendorId }

  /**
   * A generated id: `<prefix><Date.now()>_<random>`; the clock reading and
   * the random part are given.
   */
  function NewId(prefix: string, stamp: nat, suffix: string): string {
    prefix + NatToString(stamp) + "_" + suffix
  }

  /** Two generated ids with the same prefix are equal only for the same clock reading and random part. */
  lemma NewIdInjective(prefix: string, stamp1: nat, suffix1: string, stamp2: nat, suffix2: string)
    requires NewId(prefix, stamp1, suffix1) == NewId(prefix, stamp2, suffix2)
    ensures stamp1 == stamp2 && suffix1 == suffix2
  {
    var digits1, digits2 := NatToString(stamp1), NatToString(stamp2);
    var rest1, rest2 := digits1 + "_" + suffix1, digits2 + "_" + suffix2;
    assert NewId(prefix, stamp1, suffix1) == prefix + rest1;
    assert NewId(prefix, stamp2, suffix2) == prefix + rest2;
    assert rest1 == rest2 by {
      assert rest1 == (prefix + rest1)[|prefix|..];
      assert rest2 == (prefix + rest2)[|prefix|..];
    }
    DigitsBeforeUnderscore(digits1, suffix1);
    DigitsBeforeUnderscore(digits2, suffix2);
    NatToStringRoundTrip(stamp1);
    NatToStringRoundTrip(stamp2);
    assert suffix1 == rest1[|digits1| + 1..];
    assert suffix2 == rest2[|digits2| + 1..];
  }

  lemma DigitsBeforeUnderscore(digits: string, suffix: string)
    requires forall k :: 0 <= k < |digits| ==> IsDigit(digits[k])
    ensures BeforeFirst(digits + "_" + suffix, '_') == digits
  {
    assert forall k :: 0 <= k < |digits| ==> digits[k] != '_';
    BeforeFirstAppend(digits, '_', "_" + suffix);
    assert digits + "_" + suffix == digits + ("_" + suffix);
  }

  // ----- what the API hands to the store -----

  /** `Omit<Vendor, 'id' | 'createdAt'>` */
  datatype VendorFields = VendorFields(
    name: string, subdomain: string, whatsappNumber: string, upiId: string, address: string)

  /** `Partial<Omit<Vendor, 'id' | 'subdomain' | 'createdAt'>>`: None is a key that is not there. */
  datatype VendorPatch = VendorPatch(
    name: Option<string>, whatsappNumber: Option<string>, upiId: Option<string>, address: Option<string>)

  /** `Omit<MenuItem, 'id' | 'createdAt'>` */
  datatype ItemFields = ItemFields(
    vendorId: string, name: string, price: int, category: string, image: Option<string>, isAvailable: bool)

  /** `Partial<Omit<MenuItem, 'id' | 'vendorId' | 'createdAt'>>` */
  datatype ItemPatch = ItemPatch(
    name: Option<string>, price: Option<int>, category: Option<string>,
    image: Option<Option<string>>, isAvailable: Option<bool>)

  /** One key of an object spread: the update's value when it has the key, else the current one. */
  function Pick<T>(update: Option<T>, current: T): T {
    if update.Some? then update.value else current
  }

  /** `{ ...vendor, ...updates }` */
  function ApplyVendorPatch(v: Vendor, p: VendorPatch): (r: Vendor)
    ensures r.id == v.id && r.subdomain == v.subdomain && r.createdAt == v.createdAt
  {
    v.(name := Pick(p.name, v.name),
       whatsappNumber := Pick(p.whatsappNumber, v.whatsappNumber),
       upiId := Pick(p.upiId, v.upiId),
       address := Pick(p.address, v.address))
  }

  /** `{ ...item, ...updates }` */
  function ApplyItemPatch(item: MenuItem, p: ItemPatch): (r: MenuItem)
    ensures r.id == item.id && r.vendorId == item.vendorId && r.createdAt == item.createdAt
  {
    item.(name := Pick(p.name, item.name),
          price := Pick(p.price, item.price),
          category := Pick(p.category, item.category),
          image := Pick(p.image, item.image),
          isAvailable := Pick(p.isAvailable, item.isAvailable))
  }

  /** An empty patch changes nothing. */
  lemma EmptyPatches(v: Vendor, item: MenuItem)
    ensures ApplyVendorPatch(v, VendorPatch(None, None, None, None)) == v
    ensures ApplyItemPatch(item, ItemPatch(None, None, None, None, None)) == item
  {
  }

  /** `getMenuItems(vendorId)`: a truthy vendor id selects that vendor's items; otherwise all items. */
  function ItemsOf(items: seq<MenuItem>, vendorId: Option<string>): seq<MenuItem> {
    if Truthy(vendorId) then KeepByKey(items, OwnerKey, vendorId.value) else items
  }

  /** What `getMenuItems` returns for a vendor: exactly its items. */
  lemma ItemsOfMeans(items: seq<MenuItem>, vendorId: Option<string>)
    ensures Truthy(vendorId) ==>
      forall x :: x in ItemsOf(items, vendorId) <==> x in items && x.vendorId == vendorId.value
    ensures !Truthy(vendorId) ==> ItemsOf(items, vendorId) == items
  {
    if Truthy(vendorId) {
      KeepByKeyMembers(items, OwnerKey, vendorId.value);
    }
  }

  /**
   * `getMenuItems` keeps stored order: the items of a longer list are those
   * of its front followed by those of the rest, and one item is kept exactly
   * when it belongs to the vendor (or no vendor is asked for).
   */
  lemma ItemsOfOrder(items: seq<MenuItem>, more: seq<MenuItem>, x: MenuItem, vendorId: Option<string>)
    ensures ItemsOf(items + more, vendorId) == ItemsOf(items, vendorId) + ItemsOf(more, vendorId)
    ensures ItemsOf([x], vendorId) == if !Truthy(vendorId) || x.vendorId == vendorId.value then [x] else []
  {
    if Truthy(vendorId) {
      KeepByKeyAppend(items, more, OwnerKey, vendorId.value);
      assert [x][1..] == [];
    }
  }

  /** Two items created one after the other for a vendor are listed in creation order. */
  lemma ItemsInCreationOrder(items: seq<MenuItem>, x: MenuItem, y: MenuItem, v: string)
    requires v != "" && x.vendorId == v && y.vendorId == v
    ensures ItemsOf(items + [x] + [y], Some(v)) == ItemsOf(items, Some(v)) + [x, y]
  {
    ItemsOfOrder(items + [x], [y], y, Some(v));
    ItemsOfOrder(items, [x], x, Some(v));
  }

  /** Unique ids stay unique when the new record's id is not in use. */
  lemma CreateKeepsIdsDistinct(vendors: seq<Vendor>, v: Vendor)
    requires DistinctBy(vendors, VendorKey)
    requires FindByKey(vendors, VendorKey, v.id).None?
    ensures DistinctBy(vendors + [v], VendorKey)
  {
    DistinctAppend(vendors, VendorKey, v);
  }

  lemma CreateKeepsItemIdsDistinct(items: seq<MenuItem>, item: MenuItem)
    requires DistinctBy(items, ItemKey)
    requires FindByKey(items, ItemKey, item.id).None?
    ensures DistinctBy(items + [item], ItemKey)
  {
    DistinctAppend(items, ItemKey, item);
  }

  /** An update changes one record and keeps every vendor's id and subdomain, so it keeps both unique. */
  lemma UpdateKeepsVendorKeys(vendors: seq<Vendor>, i: nat, p: VendorPatch)
    requires i < |vendors|
    ensures var updated := vendors[i := ApplyVendorPatch(vendors[i], p)];
      && (DistinctBy(vendors, VendorKey) ==> DistinctBy(updated, VendorKey))
      && (DistinctBy(vendors, SubdomainKey) ==> DistinctBy(updated, SubdomainKey))
      && forall j :: 0 <= j < |updated| ==> updated[j].subdomain == vendors[j].subdomain
  {
    var v := ApplyVendorPatch(vendors[i], p);
    if DistinctBy(vendors, VendorKey) {
      DistinctUpdate(vendors, VendorKey, i, v);
    }
    if DistinctBy(vendors, SubdomainKey) {
      DistinctUpdate(vendors, SubdomainKey, i, v);
    }
  }

  lemma UpdateKeepsItemIds(items: seq<MenuItem>, i: nat, p: ItemPatch)
    requires i < |items|
    requires DistinctBy(items, ItemKey)
    ensures DistinctBy(items[i := ApplyItemPatch(items[i], p)], ItemKey)
  {
    DistinctUpdate(items, ItemKey, i, ApplyItemPatch(items[i], p));
  }

  /**
   * Deleting by id removes every item with that id and keeps the others in
   * order; with unique ids that is exactly one item.
   */
  lemma DeleteRemovesOne(items: seq<MenuItem>, id: string, i: nat)
    requires DistinctBy(items, ItemKey)
    requires i < |items| && items[i].id == id
    ensures DropByKey(items, ItemKey, id) == items[..i] + items[i + 1..]
    ensures |DropByKey(items, ItemKey, id)| == |items| - 1
  {
    DropByKeyDistinct(items, ItemKey, id, i);
  }

  /**
   * The two collection files. Every operation reads the file it needs, and
   * an operation that changes a collection writes the whole list back,
   * replacing the file at once.
   */
  class Store {
    var vendorsFile: JsonFile<Vendor>
    var itemsFile: JsonFile<MenuItem>

    constructor (vendorsFile: JsonFile<Vendor>, itemsFile: JsonFile<MenuItem>)
      ensures this.vendorsFile == vendorsFile && this.itemsFile == itemsFile
    {
      this.vendorsFile := vendorsFile;
      this.itemsFile := itemsFile;
    }

    function Vendors(): seq<Vendor>
      reads this
    {
      Load(vendorsFile)
    }

    function Items(): seq<MenuItem>
      reads this
    {
      Load(itemsFile)
    }

    /** `getVendors()`: the stored vendors, or none when the file is missing or does not parse. */
    method GetVendors() returns (vendors: seq<Vendor>)
      ensures vendorsFile.Holds? ==> vendors == vendorsFile.records
      ensures !vendorsFile.Holds? ==> vendors == []
    {
      match vendorsFile
      case Holds(records) => vendors := records;
      case _ => vendors := [];
    }

    /** `getMenuItems()` without a vendor: every stored item. */
    method GetAllItems() returns (items: seq<MenuItem>)
      ensures itemsFile.Holds? ==> items == itemsFile.records
      ensures !itemsFile.Holds? ==> items == []
    {
      match itemsFile
      case Holds(records) => items := records;
      case _ => items := [];
    }

    /** `writeJSONFile(VENDORS_FILE, vendors)`: the file is replaced; reading it back gives the list written. */
    method WriteVendors(vendors: seq<Vendor>)
      modifies this`vendorsFile
      ensures vendorsFile == Holds(vendors) && Vendors() == vendors
    {
      vendorsFile := Holds(vendors);
    }

    method WriteItems(items: seq<MenuItem>)
      modifies this`itemsFile
      ensures itemsFile == Holds(items) && Items() == items
    {
      itemsFile := Holds(items);
    }

    /** `getVendorBySubdomain(subdomain)`: the first stored vendor with that subdomain. */
    method GetVendorBySubdomain(subdomain: string) returns (r: Option<Vendor>)
      ensures r == FindByKey(Vendors(), SubdomainKey, subdomain)
      ensures r.None? <==> forall j :: 0 <= j < |Vendors()| ==> Vendors()[j].subdomain != subdomain
      ensures r.Some? ==>
        exists i :: 0 <= i < |Vendors()| && Vendors()[i] == r.value
          && r.value.subdomain == subdomain && forall j :: 0 <= j < i ==> Vendors()[j].subdomain != subdomain
    {
      var vendors := GetVendors();
      r := FindByKey(vendors, SubdomainKey, subdomain);
    }

    /** `getVendorById(id)`: the first stored vendor with that id. */
    method GetVendorById(id: string) returns (r: Option<Vendor>)
      ensures r == FindByKey(Vendors(), VendorKey, id)
      ensures r.None? <==> forall j :: 0 <= j < |Vendors()| ==> Vendors()[j].id != id
      ensures r.Some? ==>
        exists i :: 0 <= i < |Vendors()| && Vendors()[i] == r.value
          && r.value.id == id && forall j :: 0 <= j < i ==> Vendors()[j].id != id
    {
      var vendors := GetVendors();
      r := FindByKey(vendors, VendorKey, id);
    }

    /** `getMenuItems(vendorId)` */
    method GetMenuItems(vendorId: Option<string>) returns (items: seq<MenuItem>)
      ensures items == ItemsOf(Items(), vendorId)
      ensures forall x :: x in items ==> x in Items()
    {
      ItemsOfMeans(Items(), vendorId);
      items := GetAllItems();
      if Truthy(vendorId) {
        items := KeepByKey(items, OwnerKey, vendorId.value);
      }
    }

    /** `getMenuItemById(id)`: the first stored item with that id. */
    method GetMenuItemById(id: string) returns (r: Option<MenuItem>)
      ensures r == FindByKey(Items(), ItemKey, id)
      ensures r.None? <==> forall j :: 0 <= j < |Items()| ==> Items()[j].id != id
      ensures r.Some? ==>
        exists i :: 0 <= i < |Items()| && Items()[i] == r.value
          && r.value.id == id && forall j :: 0 <= j < i ==> Items()[j].id != id
    {
      var items := GetMenuItems(None);
      r := FindByKey(items, ItemKey, id);
    }

    /**
     * `createVendor(data)`: one vendor is appended, with a new id and the
     * creation time; nothing checks that the subdomain is free.
     */
    method CreateVendor(data: VendorFields, stamp: nat, suffix: string, createdAt: string) returns (v: Vendor)
      modifies this
      ensures v == Vendor(NewId("vendor_", stamp, suffix), data.name, data.subdomain,
                          data.whatsappNumber, data.upiId, data.address, createdAt)
      ensures Vendors() == old(Vendors()) + [v]
      ensures vendorsFile == Holds(Vendors()) && itemsFile == old(itemsFile)
    {
      var vendors := GetVendors();
      v := Vendor(NewId("vendor_", stamp, suffix), data.name, data.subdomain,
                  data.whatsappNumber, data.upiId, data.address, createdAt);
      vendors := vendors + [v];
      WriteVendors(vendors);
    }

    /**
     * `updateVendor(id, updates)`: None, and no write, for an unknown id;
     * otherwise the first vendor with that id is merged with the updates.
     */
    method UpdateVendor(id: string, updates: VendorPatch) returns (r: Option<Vendor>)
      modifies this
      ensures itemsFile == old(itemsFile)
      ensures IndexOfKey(old(Vendors()), VendorKey, id).None? ==>
        r.None? && vendorsFile == old(vendorsFile)
      ensures IndexOfKey(old(Vendors()), VendorKey, id).Some? ==>
        var i := IndexOfKey(old(Vendors()), VendorKey, id).value;
        && r == Some(ApplyVendorPatch(old(Vendors())[i], updates))
        && vendorsFile == Holds(old(Vendors())[i := r.value])
    {
      var vendors := GetVendors();
      var index := IndexOfKey(vendors, VendorKey, id);
      if index.None? {
        return None;
      }
      var i := index.value;
      vendors := vendors[i := ApplyVendorPatch(vendors[i], updates)];
      WriteVendors(vendors);
      r := Some(vendors[i]);
    }

    /** `createMenuItem(data)`: one item is appended, with a new id and the creation time. */
    method CreateMenuItem(data: ItemFields, stamp: nat, suffix: string, createdAt: string) returns (item: MenuItem)
      modifies this
      ensures item == MenuItem(NewId("item_", stamp, suffix), data.vendorId, data.name, data.price,
                               data.category, data.image, data.isAvailable, createdAt)
      ensures Items() == old(Items()) + [item]
      ensures itemsFile == Holds(Items()) && vendorsFile == old(vendorsFile)
    {
      var items := GetMenuItems(None);
      item := MenuItem(NewId("item_", stamp, suffix), data.vendorId, data.name, data.price,
                       data.category, data.image, data.isAvailable, createdAt);
      items := items + [item];
      WriteItems(items);
    }

    /** `updateMenuItem(id, updates)` */
    method UpdateMenuItem(id: string, updates: ItemPatch) returns (r: Option<MenuItem>)
      modifies this
      ensures vendorsFile == old(vendorsFile)
      ensures IndexOfKey(old(Items()), ItemKey, id).None? ==>
        r.None? && itemsFile == old(itemsFile)
      ensures IndexOfKey(old(Items()), ItemKey, id).Some? ==>
        var i := IndexOfKey(old(Items()), ItemKey, id).value;
        && r == Some(ApplyItemPatch(old(Items())[i], updates))
        && itemsFile == Holds(old(Items())[i := r.value])
    {
      var items := GetMenuItems(None);
      var index := IndexOfKey(items, ItemKey, id);
      if index.None? {
        return None;
      }
      var i := index.value;
      items := items[i := ApplyItemPatch(items[i], updates)];
      WriteItems(items);
      r := Some(items[i]);
    }

    /**
     * `deleteMenuItem(id)`: false, and no write, when no item has the id;
     * otherwise every item with the id is removed and the rest keep their order.
     */
    method DeleteMenuItem(id: string) returns (deleted: bool)
      modifies this
      ensures vendorsFile == old(vendorsFile)
      ensures deleted <==> exists j :: 0 <= j < |old(Items())| && old(Items())[j].id == id
      ensures !deleted ==> itemsFile == old(itemsFile)
      ensures deleted ==> itemsFile == Holds(DropByKey(old(Items()), ItemKey, id))
      ensures forall j :: 0 <= j < |Items()| ==> Items()[j].id != id
    {
      var items := GetMenuItems(None);
      var filtered := DropByKey(items, ItemKey, id);
      DropByKeyLength(items, ItemKey, id);
      DropByKeyMembers(items, ItemKey, id);
      if |filtered| == |items| {
        return false;
      }
      WriteItems(filtered);
      deleted := true;
      forall j | 0 <= j < |filtered|
        ensures filtered[j].id != id
      {
        assert filtered[j] in filtered;
      }
    }
  }
}
