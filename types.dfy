/**
 * The records of the system. Prices are integers in the shop's currency unit;
 * ids and timestamps are opaque strings.
 */
module Types {
  import opened Basics

  datatype Vendor = Vendor(
    id: string,
    name: string,
    subdomain: string,
    whatsappNumber: string,
    upiId: string,
    address: string,
    createdAt: string)

  datatype MenuItem = MenuItem(
    id: string,
    vendorId: string,
    name: string,
    price: int,
    category: string,
    image: Option<string>,
    isAvailable: bool,
    createdAt: string)

  /** A menu item in the customer's cart, with how many of it were ordered. */
  datatype CartItem = CartItem(item: MenuItem, quantity: int) {
    function Id(): string { item.id }
  }
}
