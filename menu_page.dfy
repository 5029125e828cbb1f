/**
 * The customer's menu page: which tenant to load, the category tabs, and
 * the cart, whose state is replaced wholesale on every change.
 */
module MenuPage {
  import opened Basics
  import opened Seqs
  import opened Strings
  import opened Types
  import opened Utils

  // ----- which tenant to load -----

  /**
   * The tenant the page loads: the `subdomain` parameter, where the literal
   * "null" counts as absent; without one, the first dot-label of a hostname
   * whose last label is "localhost". None, or "", means nothing is fetched.
   * `hostname` is None where there is no window.
   */
  function PageTenant(param: Option<string>, hostname: Option<string>): Option<string> {
    var current := if param == Some("null") then None else param;
    if !Truthy(current) && hostname.Some? then
      var parts := Split(hostname.value, '.');
      if |parts| > 1 && parts[|parts| - 1] == "localhost" then Some(parts[0]) else current
    else current
  }

  /** A real parameter wins over the hostname. */
  lemma ParamWins(param: Option<string>, hostname: Option<string>)
    requires Truthy(param) && param != Some("null")
    ensures PageTenant(param, hostname) == param
  {
  }

  /** The literal "null" is read as no parameter. */
  lemma NullParamIsAbsent(hostname: Option<string>)
    ensures PageTenant(Some("null"), hostname) == PageTenant(None, hostname)
  {
  }

  /** On `<s>.localhost` the page finds tenant `s` by itself. */
  lemma LocalhostFallback(s: string)
    requires '.' !in s
    ensures PageTenant(None, Some(s + ".localhost")) == Some(s)
  {
    var tld := "localhost";
    assert s + ".localhost" == s + ['.'] + tld;
    TwoLabels(s, '.', tld);
  }

  /**
   * The fallback takes the FIRST label: on `<a>.<b>.localhost` it loads
   * tenant `a`, although the host names the tenant `<a>.<b>`.
   */
  lemma FallbackTakesFirstLabel(a: string, b: string)
    requires '.' !in a && '.' !in b
    ensures PageTenant(None, Some(a + "." + b + ".localhost")) == Some(a)
  {
    var tld := "localhost";
    assert a + "." + b + ".localhost" == a + ['.'] + (b + ['.'] + tld);
    ThreeLabels(a, b, '.', tld);
  }

  lemma TwoLabels(x: string, c: char, y: string)
    requires c !in x && c !in y
    ensures Split(x + [c] + y, c) == [x, y]
  {
    SplitConcat(x, c, y);
    SplitNoSeparator(x, c);
    SplitNoSeparator(y, c);
  }

  lemma ThreeLabels(x: string, y: string, c: char, z: string)
    requires c !in x && c !in y && c !in z
    ensures Split(x + [c] + (y + [c] + z), c) == [x, y, z]
  {
    SplitConcat(x, c, y + [c] + z);
    SplitNoSeparator(x, c);
    TwoLabels(y, c, z);
  }

  /** Off localhost the hostname is never used: a missing parameter loads nothing. */
  lemma NoFallbackOffLocalhost(host: string)
    requires !EndsWith(host, ".localhost")
    ensures PageTenant(None, Some(host)) == None
  {
    var parts := Split(host, '.');
    if |parts| > 1 {
      LastLabelSuffix(host, '.');
      assert parts[|parts| - 1] != "localhost";
    }
  }

  /** A string split into several parts ends with the separator and the last part. */
  lemma LastLabelSuffix(s: string, c: char)
    requires |Split(s, c)| > 1
    ensures EndsWith(s, [c] + Split(s, c)[|Split(s, c)| - 1])
  {
    var parts := Split(s, c);
    JoinSplit(s, c);
    JoinLast(parts, [c]);
  }

  lemma {:induction false} JoinLast(parts: seq<string>, sep: string)
    requires |parts| > 1
    ensures Join(parts, sep) == Join(parts[..|parts| - 1], sep) + sep + parts[|parts| - 1]
    decreases |parts|
  {
    var n := |parts|;
    if n == 2 {
      assert Join(parts[1..], sep) == parts[1];
      assert Join(parts[..1], sep) == parts[0];
    } else {
      var rest := parts[1..];
      JoinLast(rest, sep);
      assert rest[..|rest| - 1] == parts[1..n - 1];
      assert parts[..n - 1][1..] == parts[1..n - 1];
      assert Join(parts[..n - 1], sep) == parts[0] + sep + Join(parts[1..n - 1], sep);
      assert Join(parts, sep) == parts[0] + sep + Join(rest, sep);
    }
  }

  // ----- category tabs -----

  function CategoryKey(item: MenuItem): string { item.category }

  /** `menuItems.map(item => item.category)` */
  function Categories(items: seq<MenuItem>): (r: seq<string>)
    ensures |r| == |items| && forall j :: 0 <= j < |items| ==> r[j] == items[j].category
  {
    if items == [] then [] else Categories(items[..|items| - 1]) + [items[|items| - 1].category]
  }

  /** The position where `x` first appears in `values`. */
  function FirstAt(values: seq<string>, x: string): (r: nat)
    requires x in values
    ensures r < |values| && values[r] == x && x !in values[..r]
  {
    if values[0] == x then 0
    else
      var r := FirstAt(values[1..], x) + 1;
      assert values[..r] == [values[0]] + values[1..][..r - 1];
      r
  }

  /** Appending a value does not move where earlier values first appear. */
  lemma FirstAtAppend(values: seq<string>, y: string, x: string)
    requires x in values
    ensures FirstAt(values + [y], x) == FirstAt(values, x)
  {
    var w := values + [y];
    var r, t := FirstAt(values, x), FirstAt(w, x);
    assert w[r] == x;
    assert forall k :: 0 <= k < t ==> w[k] != x;
    assert forall k :: 0 <= k < r ==> w[k] == values[k] != x;
  }

  /**
   * `[...new Set(values)]`: each value once, in the order it first appears.
   * Same members, no repeats and that order together fix the result.
   */
  function Unique(values: seq<string>): (r: seq<string>)
    ensures forall x :: x in r <==> x in values
    ensures forall i, j :: 0 <= i < j < |r| ==> r[i] != r[j]
    ensures forall i, j :: 0 <= i < j < |r| ==> FirstAt(values, r[i]) < FirstAt(values, r[j])
  {
    if values == [] then []
    else
      var init := values[..|values| - 1];
      var front := Unique(init);
      var last := values[|values| - 1];
      assert values == init + [last];
      assert forall x :: x in values <==> x in init || x == last;
      UniqueOrder(init, last, front);
      if last in front then front else front + [last]
  }

  lemma UniqueOrder(init: seq<string>, last: string, front: seq<string>)
    requires forall x :: x in front <==> x in init
    requires forall i, j :: 0 <= i < j < |front| ==> FirstAt(init, front[i]) < FirstAt(init, front[j])
    ensures forall i, j :: 0 <= i < j < |front| ==> FirstAt(init + [last], front[i]) < FirstAt(init + [last], front[j])
    ensures last !in front ==>
      var r := front + [last];
      forall i, j :: 0 <= i < j < |r| ==> FirstAt(init + [last], r[i]) < FirstAt(init + [last], r[j])
  {
    var values := init + [last];
    forall i | 0 <= i < |front|
      ensures FirstAt(values, front[i]) == FirstAt(init, front[i])
    {
      FirstAtAppend(init, last, front[i]);
    }
    if last !in front {
      FirstAtNew(init, last);
      UniqueOrderLast(values, front, last, |init|);
    }
  }

  /** A value not seen before first appears where it is appended. */
  lemma FirstAtNew(init: seq<string>, last: string)
    requires last !in init
    ensures FirstAt(init + [last], last) == |init|
  {
    assert (init + [last])[..|init|] == init;
  }

  lemma UniqueOrderLast(values: seq<string>, front: seq<string>, last: string, n: nat)
    requires forall x :: x in front ==> x in values && FirstAt(values, x) < n
    requires last in values && FirstAt(values, last) == n
    requires forall i, j :: 0 <= i < j < |front| ==> FirstAt(values, front[i]) < FirstAt(values, front[j])
    ensures var r := front + [last];
      forall i, j :: 0 <= i < j < |r| ==> FirstAt(values, r[i]) < FirstAt(values, r[j])
  {
    var r := front + [last];
    forall i, j | 0 <= i < j < |r|
      ensures FirstAt(values, r[i]) < FirstAt(values, r[j])
    {
      assert r[i] == front[i];
      if j < |front| {
        assert r[j] == front[j];
      }
    }
  }

  /** `['All', ...new Set(menuItems.map(item => item.category))]` */
  function Tabs(items: seq<MenuItem>): seq<string> {
    ["All"] + Unique(Categories(items))
  }

  lemma {:induction false} CategoriesMeans(items: seq<MenuItem>)
    ensures forall c :: c in Categories(items) <==> exists j :: 0 <= j < |items| && items[j].category == c
  {
    if items != [] {
      var init := items[..|items| - 1];
      CategoriesMeans(init);
      forall c ensures c in Categories(items) <==> exists j :: 0 <= j < |items| && items[j].category == c {
        if c in Categories(items) && c != items[|items| - 1].category {
          assert Categories(items) == Categories(init) + [items[|items| - 1].category];
          assert c in Categories(init);
          var j :| 0 <= j < |init| && init[j].category == c;
          assert items[j].category == c;
        }
        if exists j :: 0 <= j < |items| && items[j].category == c {
          var j :| 0 <= j < |items| && items[j].category == c;
          if j < |init| {
            assert init[j].category == c;
          }
        }
      }
    }
  }

  /** The tabs are "All" and then every category of the menu once. */
  lemma TabsMeans(items: seq<MenuItem>)
    ensures Tabs(items)[0] == "All"
    ensures forall c :: c in Tabs(items)[1..] <==> exists j :: 0 <= j < |items| && items[j].category == c
    ensures forall i, j :: 1 <= i < j < |Tabs(items)| ==> Tabs(items)[i] != Tabs(items)[j]
    ensures forall i, j :: 1 <= i < j < |Tabs(items)| ==>
      FirstAt(Categories(items), Tabs(items)[i]) < FirstAt(Categories(items), Tabs(items)[j])
  {
    CategoriesMeans(items);
    assert Tabs(items)[1..] == Unique(Categories(items));
  }

  /** A menu with a category called "All" gets two "All" tabs. */
  lemma AllTabTwice(items: seq<MenuItem>, j: nat)
    requires j < |items| && items[j].category == "All"
    ensures Tabs(items)[0] == "All" && "All" in Tabs(items)[1..]
  {
    TabsMeans(items);
  }

  /** The items shown under a tab: all of them under "All", else exactly that category's, in order. */
  function Shown(items: seq<MenuItem>, active: string): seq<MenuItem> {
    if active == "All" then items else KeepByKey(items, CategoryKey, active)
  }

  lemma ShownMeans(items: seq<MenuItem>, active: string)
    ensures active == "All" ==> Shown(items, active) == items
    ensures active != "All" ==>
      forall x :: x in Shown(items, active) <==> x in items && x.category == active
  {
    if active != "All" {
      KeepByKeyMembers(items, CategoryKey, active);
    }
  }

  /** The shown items keep menu order: a longer menu shows its front's items, then the rest's. */
  lemma ShownOrder(items: seq<MenuItem>, more: seq<MenuItem>, x: MenuItem, active: string)
    ensures Shown(items + more, active) == Shown(items, active) + Shown(more, active)
    ensures Shown([x], active) == if active == "All" || x.category == active then [x] else []
  {
    if active != "All" {
      KeepByKeyAppend(items, more, CategoryKey, active);
      assert [x][1..] == [];
    }
  }

  // ----- the cart -----

  function CartKey(c: CartItem): string { c.item.id }

  predicate InCart(c: CartItem) { c.quantity > 0 }

  /** `cart.map(c => c.id === id ? { ...c, quantity: c.quantity + 1 } : c)` */
  function Bump(cart: seq<CartItem>, id: string): (r: seq<CartItem>)
    ensures |r| == |cart|
  {
    if cart == [] then []
    else [if cart[0].Id() == id then CartItem(cart[0].item, cart[0].quantity + 1) else cart[0]]
         + Bump(cart[1..], id)
  }

  /** `addToCart(item)` */
  function AddToCart(cart: seq<CartItem>, item: MenuItem): seq<CartItem> {
    if FindByKey(cart, CartKey, item.id).Some? then Bump(cart, item.id) else cart + [CartItem(item, 1)]
  }

  function Max0(x: int): nat { if x < 0 then 0 else x }

  /** `prev.map(item => item.id === id ? { ...item, quantity: Math.max(0, item.quantity + delta) } : item)` */
  function Adjust(cart: seq<CartItem>, id: string, delta: int): (r: seq<CartItem>)
    ensures |r| == |cart|
  {
    if cart == [] then []
    else [if cart[0].Id() == id then CartItem(cart[0].item, Max0(cart[0].quantity + delta)) else cart[0]]
         + Adjust(cart[1..], id, delta)
  }

  /** `updateQuantity(id, delta)`: adjust, then drop what reached 0. */
  function UpdateQuantity(cart: seq<CartItem>, id: string, delta: int): seq<CartItem> {
    Filter(Adjust(cart, id, delta), InCart)
  }

  /** `cart.reduce((sum, item) => sum + item.quantity, 0)` */
  function TotalItems(cart: seq<CartItem>): int {
    if cart == [] then 0 else TotalItems(cart[..|cart| - 1]) + cart[|cart| - 1].quantity
  }

  /** `totalAmount` is the same fold as the order message's total. */
  function TotalAmount(cart: seq<CartItem>): int {
    OrderTotal(cart)
  }

  /** The cart invariant: every quantity at least 1, and one entry per item. */
  ghost predicate CartOk(cart: seq<CartItem>) {
    (forall j :: 0 <= j < |cart| ==> cart[j].quantity >= 1) && DistinctBy(cart, CartKey)
  }

  lemma {:induction false} MapNoMatch(cart: seq<CartItem>, id: string, delta: int)
    requires forall j :: 0 <= j < |cart| ==> cart[j].Id() != id
    ensures Bump(cart, id) == cart && Adjust(cart, id, delta) == cart
  {
    if cart != [] {
      MapNoMatch(cart[1..], id, delta);
    }
  }

  /** With one entry per item, the map changes exactly the entry at `i`. */
  lemma {:induction false} MapOneMatch(cart: seq<CartItem>, id: string, delta: int, i: nat)
    requires DistinctBy(cart, CartKey)
    requires i < |cart| && cart[i].Id() == id
    ensures Bump(cart, id) == cart[i := CartItem(cart[i].item, cart[i].quantity + 1)]
    ensures Adjust(cart, id, delta) == cart[i := CartItem(cart[i].item, Max0(cart[i].quantity + delta))]
  {
    if i == 0 {
      assert forall j :: 0 <= j < |cart[1..]| ==> cart[1..][j].Id() != id by {
        forall j | 0 <= j < |cart[1..]| ensures cart[1..][j].Id() != id {
          assert CartKey(cart[0]) != CartKey(cart[j + 1]);
        }
      }
      MapNoMatch(cart[1..], id, delta);
    } else {
      assert DistinctBy(cart[1..], CartKey) by {
        forall a, b | 0 <= a < b < |cart[1..]| ensures CartKey(cart[1..][a]) != CartKey(cart[1..][b]) {
          assert CartKey(cart[a + 1]) != CartKey(cart[b + 1]);
        }
      }
      MapOneMatch(cart[1..], id, delta, i - 1);
      assert cart[0].Id() != id by {
        assert CartKey(cart[0]) != CartKey(cart[i]);
      }
    }
  }

  lemma {:induction false} TotalItemsAppend(a: seq<CartItem>, b: seq<CartItem>)
    ensures TotalItems(a + b) == TotalItems(a) + TotalItems(b)
    decreases |b|
  {
    if b == [] {
      assert a + b == a;
    } else {
      var init := b[..|b| - 1];
      TotalItemsAppend(a, init);
      assert (a + b)[..|a + b| - 1] == a + init;
    }
  }

  /** Changing one entry changes the totals by that entry's difference. */
  lemma TotalsUpdate(cart: seq<CartItem>, i: nat, x: CartItem)
    requires i < |cart|
    ensures TotalItems(cart[i := x]) == TotalItems(cart) - cart[i].quantity + x.quantity
    ensures TotalAmount(cart[i := x]) == TotalAmount(cart) - LineAmount(cart[i]) + LineAmount(x)
  {
    var front, back := cart[..i], cart[i + 1..];
    assert cart == front + [cart[i]] + back;
    assert cart[i := x] == front + [x] + back;
    TotalItemsAppend(front + [cart[i]], back);
    TotalItemsAppend(front, [cart[i]]);
    TotalItemsAppend(front + [x], back);
    TotalItemsAppend(front, [x]);
    assert TotalItems([x]) == x.quantity by {
      assert [x][..0] == [];
    }
    assert TotalItems([cart[i]]) == cart[i].quantity by {
      assert [cart[i]][..0] == [];
    }
    OrderTotalAppend(front + [cart[i]], back);
    OrderTotalAppend(front, [cart[i]]);
    OrderTotalAppend(front + [x], back);
    OrderTotalAppend(front, [x]);
    OrderTotalCons(x, []);
    OrderTotalCons(cart[i], []);
    assert [x] + [] == [x] && [cart[i]] + [] == [cart[i]];
  }

  /**
   * Adding an item already in the cart raises its entry's quantity by one and
   * changes nothing else; the cart holds one more item and the amount grows
   * by the item's price.
   */
  lemma AddExisting(cart: seq<CartItem>, item: MenuItem, i: nat)
    requires CartOk(cart) && i < |cart| && cart[i].Id() == item.id
    ensures AddToCart(cart, item) == cart[i := CartItem(cart[i].item, cart[i].quantity + 1)]
    ensures TotalItems(AddToCart(cart, item)) == TotalItems(cart) + 1
    ensures TotalAmount(AddToCart(cart, item)) == TotalAmount(cart) + cart[i].item.price
  {
    assert CartKey(cart[i]) == item.id;
    assert FindByKey(cart, CartKey, item.id).Some?;
    MapOneMatch(cart, item.id, 0, i);
    BumpTotals(cart, i);
  }

  /** One more of entry `i`: one more item, and that item's price more to pay. */
  lemma BumpTotals(cart: seq<CartItem>, i: nat)
    requires i < |cart|
    ensures var r := cart[i := CartItem(cart[i].item, cart[i].quantity + 1)];
      TotalItems(r) == TotalItems(cart) + 1 && TotalAmount(r) == TotalAmount(cart) + cart[i].item.price
  {
    var bumped := CartItem(cart[i].item, cart[i].quantity + 1);
    TotalsUpdate(cart, i, bumped);
    var p, q := cart[i].item.price, cart[i].quantity;
    assert LineAmount(bumped) == LineAmount(cart[i]) + p by {
      OneMore(p, q);
    }
  }

  lemma OneMore(p: int, q: int)
    ensures p * (q + 1) == p * q + p
  {
  }

  /** A new item is appended with quantity 1. */
  lemma AddNew(cart: seq<CartItem>, item: MenuItem)
    requires forall j :: 0 <= j < |cart| ==> cart[j].Id() != item.id
    ensures AddToCart(cart, item) == cart + [CartItem(item, 1)]
    ensures TotalItems(AddToCart(cart, item)) == TotalItems(cart) + 1
    ensures TotalAmount(AddToCart(cart, item)) == TotalAmount(cart) + item.price
  {
    assert forall j :: 0 <= j < |cart| ==> CartKey(cart[j]) != item.id;
    var c := CartItem(item, 1);
    TotalItemsAppend(cart, [c]);
    assert TotalItems([c]) == 1 by {
      assert [c][..0] == [];
    }
    OrderTotalAppend(cart, [c]);
    OrderTotalCons(c, []);
    assert [c] + [] == [c];
  }

  lemma AddToCartKeepsOk(cart: seq<CartItem>, item: MenuItem)
    requires CartOk(cart)
    ensures CartOk(AddToCart(cart, item))
  {
    var k := IndexOfKey(cart, CartKey, item.id);
    if k.Some? {
      var i := k.value;
      AddExisting(cart, item, i);
      DistinctUpdate(cart, CartKey, i, CartItem(cart[i].item, cart[i].quantity + 1));
    } else {
      AddNew(cart, item);
      DistinctAppend(cart, CartKey, CartItem(item, 1));
    }
  }

  /** Changing the quantity of an id not in the cart changes nothing. */
  lemma ChangeAbsent(cart: seq<CartItem>, id: string, delta: int)
    requires CartOk(cart)
    requires forall j :: 0 <= j < |cart| ==> cart[j].Id() != id
    ensures UpdateQuantity(cart, id, delta) == cart
  {
    MapNoMatch(cart, id, delta);
    FilterKeepsAll(cart, InCart);
  }

  /** A change that leaves a positive quantity sets that entry to it; nothing else moves. */
  lemma ChangeKeeps(cart: seq<CartItem>, id: string, delta: int, i: nat)
    requires CartOk(cart) && i < |cart| && cart[i].Id() == id
    requires cart[i].quantity + delta > 0
    ensures UpdateQuantity(cart, id, delta) == cart[i := CartItem(cart[i].item, cart[i].quantity + delta)]
  {
    MapOneMatch(cart, id, delta, i);
    FilterKeepsAll(Adjust(cart, id, delta), InCart);
  }

  /** A change that brings the quantity to 0 or below removes the entry; the others stay, in order. */
  lemma ChangeRemoves(cart: seq<CartItem>, id: string, delta: int, i: nat)
    requires CartOk(cart) && i < |cart| && cart[i].Id() == id
    requires cart[i].quantity + delta <= 0
    ensures UpdateQuantity(cart, id, delta) == cart[..i] + cart[i + 1..]
  {
    MapOneMatch(cart, id, delta, i);
    var adjusted := Adjust(cart, id, delta);
    FilterRemovesOne(adjusted, InCart, i);
    assert adjusted[..i] == cart[..i] && adjusted[i + 1..] == cart[i + 1..];
  }

  lemma UpdateQuantityKeepsOk(cart: seq<CartItem>, id: string, delta: int)
    requires CartOk(cart)
    ensures CartOk(UpdateQuantity(cart, id, delta))
  {
    var k := IndexOfKey(cart, CartKey, id);
    if k.None? {
      assert forall j :: 0 <= j < |cart| ==> CartKey(cart[j]) != id;
      ChangeAbsent(cart, id, delta);
    } else {
      var i := k.value;
      if cart[i].quantity + delta > 0 {
        ChangeKeeps(cart, id, delta, i);
        DistinctUpdate(cart, CartKey, i, CartItem(cart[i].item, cart[i].quantity + delta));
      } else {
        ChangeRemoves(cart, id, delta, i);
        RemoveKeepsOk(cart, i);
      }
    }
  }

  lemma RemoveKeepsOk(cart: seq<CartItem>, i: nat)
    requires CartOk(cart) && i < |cart|
    ensures CartOk(cart[..i] + cart[i + 1..])
  {
    var r := cart[..i] + cart[i + 1..];
    assert forall j :: 0 <= j < |r| ==> r[j] == cart[if j < i then j else j + 1];
  }

  /** What the customer does to the cart. */
  datatype CartAction = Add(item: MenuItem) | Change(id: string, delta: int)

  function Perform(cart: seq<CartItem>, actions: seq<CartAction>): seq<CartItem>
    decreases |actions|
  {
    if actions == [] then cart
    else
      var next := match actions[0]
        case Add(item) => AddToCart(cart, item)
        case Change(id, delta) => UpdateQuantity(cart, id, delta);
      Perform(next, actions[1..])
  }

  /** From the empty cart, whatever the customer does, every quantity stays at least 1 and no item appears twice. */
  lemma {:induction false} PerformKeepsOk(cart: seq<CartItem>, actions: seq<CartAction>)
    requires CartOk(cart)
    ensures CartOk(Perform(cart, actions))
    decreases |actions|
  {
    if actions != [] {
      match actions[0] {
        case Add(item) => AddToCartKeepsOk(cart, item);
        case Change(id, delta) => UpdateQuantityKeepsOk(cart, id, delta);
      }
      var next := match actions[0]
        case Add(item) => AddToCart(cart, item)
        case Change(id, delta) => UpdateQuantity(cart, id, delta);
      PerformKeepsOk(next, actions[1..]);
    }
  }

  // ----- ordering and paying -----

  /** `handleWhatsAppOrder`: the link opened, if any. */
  function WhatsAppOrder(vendor: Option<Vendor>, cart: seq<CartItem>): (link: Option<string>)
    ensures link.Some? <==> vendor.Some? && cart != []
  {
    if vendor.None? || |cart| == 0 then None
    else Some(GenerateWhatsAppLink(vendor.value.whatsappNumber, FormatWhatsAppOrder(cart, vendor.value.name)))
  }

  /** `handleUpiPayment`: the link followed, if any. */
  function UpiPayment(vendor: Option<Vendor>, cart: seq<CartItem>): (link: Option<string>)
    ensures link.Some? <==> vendor.Some? && TotalAmount(cart) != 0
  {
    if vendor.None? || TotalAmount(cart) == 0 then None
    else Some(GenerateUpiLink(vendor.value.upiId, vendor.value.name, TotalAmount(cart)))
  }

  /** A cart of free items can be ordered but not paid for. */
  lemma FreeCart(vendor: Vendor, cart: seq<CartItem>)
    requires cart != []
    requires forall j :: 0 <= j < |cart| ==> cart[j].item.price == 0
    ensures WhatsAppOrder(Some(vendor), cart).Some?
    ensures UpiPayment(Some(vendor), cart).None?
  {
    FreeTotal(cart);
  }

  lemma {:induction false} FreeTotal(cart: seq<CartItem>)
    requires forall j :: 0 <= j < |cart| ==> cart[j].item.price == 0
    ensures TotalAmount(cart) == 0
  {
    if cart != [] {
      FreeTotal(cart[..|cart| - 1]);
    }
  }
}
