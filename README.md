# arrvendor tenant core, modelled in Dafny

arrvendor is a multi-tenant menu and ordering site. Every vendor registers a
subdomain; a request for `<subdomain>.<root domain>` is routed by the
middleware to that vendor's public menu (or to its dashboard), and the
customer builds a cart there and sends the order over WhatsApp or pays with
a UPI deep link. Vendors and menu items live in two JSON files that every
operation reads whole and every change writes back whole.

This project models that core:

- `basics.dfy`, `seqs.dfy`, `strings.dfy`, `uri.dfy`: JavaScript's
  `null`/`undefined` and truthiness, `find`/`findIndex`/`filter`, `split`/`join`,
  first-occurrence `replace`, decimal rendering of numbers, and
  `encodeURIComponent`/`decodeURIComponent` with UTF-8 (RFC 3629, section 3).
- `types.dfy`, `http.dfy`: the records (vendor, menu item, cart line) and the
  JSON replies of the API routes.
- `utils.dfy`, `subdomain_cases.dfy`: `lib/utils.ts`. This covers subdomain
  generation, validation and extraction, the WhatsApp order message, and the
  two deep links.
- `middleware.dfy`: the routing decision, including `URLSearchParams.set`.
- `db.dfy`: `lib/db.ts` as a class `Store` whose two fields are the two JSON
  files. Its methods read a file and replace it.
- `vendors_api.dfy`, `check_subdomain_api.dfy`, `menu_api.dfy`: the API route
  handlers, as methods on a `Store`. Each method returns the reply and states
  the new contents of both files.
- `menu_page.dfy`: the logic of the customer's menu page. It covers which
  tenant to load, the category tabs, the cart, and the order and payment
  guards.

The clock, the random part of generated ids and the timestamps are
parameters. The Host header, the root-domain setting and the query are
fields of a request value, and the browser's hostname is an optional
parameter.

Invariants proved across operations:

- Registration keeps the vendor registry free of duplicate and malformed
  subdomains, over any run of registrations (`VendorsApi.PostsKeepRegistry`).
- Cart operations keep every quantity at least 1 and one line per item, over
  any run of additions and changes (`MenuPage.PerformKeepsOk`).

Properties proved about the source as written:

- `extractSubdomain` inverts "subdomain + root domain" on every port
  combination. There are two exceptions: a host that spells `127.0.0.1`, and
  a root domain ending in `.localhost`.
- A root domain ending in `.localhost` is shadowed by the development-host
  branch, which is tested first. The main site `<x>.localhost` is routed as
  tenant `x`, and a tenant `s` under it comes back as a longer name, never `s`.
- `extractSubdomain` replaces the first occurrence of `'.' + domain`,
  wherever it is in the host, not a trailing suffix.
- `"www"` is a valid subdomain that can be registered but never routed to.
- A name ending in `" -"` generates a subdomain that validation rejects.
- An `&` in a UPI id injects query parameters into the payment link.
- PATCH on a menu item can store a negative price, which POST refuses.
- A menu category named `"All"` produces a second "All" tab.
- The localhost fallback of the menu page takes only the first dot-label.

## Model

| member | source | states |
|---|---|---|
| `Seqs.IndexOfKey` | lib/db.ts:69 | `findIndex` by key: the first position holding the key, or None exactly when no element holds it |
| `Seqs.FindByKey` | lib/db.ts:42 | `find(...) \|\| null`: None exactly when no element holds the key; otherwise the first element in stored order holding it |
| `Seqs.FindByKeyDistinct` | lib/db.ts:42 | with distinct keys the element found is the only one holding the key, at its index |
| `Seqs.KeepByKeyMembers` | lib/db.ts:83 | `filter(item => item.vendorId === id)` keeps exactly the elements with that key |
| `Seqs.KeepByKeyAppend` | lib/db.ts:83 | that filter distributes over concatenation, so the kept elements stay in stored order, each as often as it occurs |
| `Seqs.DropByKeyAppend` | lib/db.ts:122 | `filter(item => item.id !== id)` distributes over concatenation, so the remaining items keep their order, whether or not ids are unique |
| `Seqs.DropByKeyLength` | lib/db.ts:122-124 | the filtered list has the original length exactly when no element has the id, and is then the list itself |
| `Seqs.DropByKeyDistinct` | lib/db.ts:122 | with distinct ids, filtering out an id removes exactly the one element holding it and keeps the rest in order |
| `Strings.FirstOccurrenceAfterFront` | lib/utils.ts:72 | when the pattern's first character does not occur in `front`, the first occurrence of the pattern in `front + pat + back` is right after `front` |
| `Strings.ReplaceFirstLength` | lib/utils.ts:72 | replacing an occurring pattern by "" shortens the string by exactly the pattern's length |
| `Strings.JoinSplit` | lib/utils.ts:33-35 | joining the parts of a split by the separator gives the string back |
| `Strings.SplitJoin` | lib/utils.ts:33-35 | splitting a join of separator-free parts gives the parts back |
| `Strings.NatToStringRoundTrip` | lib/utils.ts:39 | the decimal rendering of a number reads back as that number |
| `Strings.IntToStringRoundTrip` | lib/utils.ts:54 | the rendering of an integer amount, sign included, reads back as that amount |
| `Uri.Utf8RoundTrip` | lib/utils.ts:46 | the UTF-8 encoding of every scalar value decodes back to it, with a lead byte announcing its length |
| `Uri.EscapedBytesRoundTrip` | lib/utils.ts:46 | `%XX` escapes of a byte string read back as those bytes |
| `Uri.EncodeURIComponent` | lib/utils.ts:46 | the encoded string contains only unreserved characters and `%` |
| `Uri.DecodeEncode` | lib/utils.ts:46 | `decodeURIComponent(encodeURIComponent(s)) == s` for every string |
| `Uri.EncodedHasNoDelimiters` | lib/utils.ts:46-54 | an encoded component contains none of `& = ? # + / :` or space |
| `Uri.EncodeUnreserved` | lib/utils.ts:54 | strings of unreserved characters are not changed by encoding |
| `Utils.LowerAt` | lib/utils.ts:11 | lower-casing maps each character on its own, ASCII letters to lower case |
| `Utils.TrimCuts` | lib/utils.ts:13 | `trim()` keeps a contiguous middle part and cuts only white space around it |
| `Utils.CollapseRunsNoDoubleHyphen` | lib/utils.ts:14-15 | after `replace(/-+/g, '-')` no "--" remains |
| `Utils.CollapseRunsIdentity` | lib/utils.ts:15 | collapsing changes nothing where every run is already one hyphen |
| `Utils.GenerateSubdomainKeepsLabels` | lib/utils.ts:9-16 | the letters and digits of the result are the name's ASCII letters and digits, lower-cased, in order |
| `Utils.GenerateSubdomainShape` | lib/utils.ts:9-16 | the result uses only `[a-z0-9-]`, has no "--" and is no longer than the name |
| `Utils.GenerateSubdomainFixes` | lib/utils.ts:9-16 | a string that already has that shape is returned unchanged |
| `Utils.GenerateSubdomainOfKept` | lib/utils.ts:11-12 | only the characters the filter keeps matter to the result |
| `Utils.GenerateSubdomainIdempotent` | lib/utils.ts:9-16 | generating twice gives the same as generating once |
| `Utils.GenerateSubdomainValid` | lib/utils.ts:9-24 | a hyphen-free name of at most 50 characters with at least three letters or digits yields a subdomain that validation accepts |
| `Utils.SlugPatternIff` | lib/utils.ts:22 | `^[a-z0-9]+(-[a-z0-9]+)*$` matches exactly the runs of `[a-z0-9]` joined by single hyphens |
| `Utils.ValidateSubdomainMeans` | lib/utils.ts:21-24 | valid is exactly those runs, 3 to 50 long; a valid subdomain has no '.', no ':' and no hyphen at either end |
| `Utils.ExtractSubdomain` | lib/utils.ts:61-88 | never yields "www" or a string with ':'; a result only comes from a port-free host ending in `.localhost` or in `.` plus the port-free root domain |
| `Utils.ExtractSubdomainIgnoresPort` | lib/utils.ts:63-77 | only the parts before the first ':' of host and root domain matter |
| `Utils.ExtractSubdomainLocalhostRoundTrip` | lib/utils.ts:71-74 | `<s>.localhost[:port]` yields `s` for any dot- and colon-free `s` other than "www", whatever the root domain |
| `Utils.ExtractSubdomainRoundTrip` | lib/utils.ts:61-88 | a valid subdomain other than "www" in front of the root domain is recovered, with any ports on either side, unless the host spells `127.0.0.1` or the root domain ends in `.localhost` |
| `Utils.ExtractSubdomainMainSite` | lib/utils.ts:77-80 | the root domain and `www.` plus the root domain are the main site (None), with any ports, for root domains not ending in `.localhost` |
| `Utils.OrderTotalAppend` | lib/utils.ts:37 | the total of a concatenation is the sum of the totals |
| `Utils.OrderTotalNonNegative` | lib/utils.ts:37 | with no negative prices or quantities the total is not negative |
| `Utils.FormatWhatsAppOrderLines` | lib/utils.ts:29-40 | read line by line, the message is the greeting, a blank line, one line per entry (one empty line for an empty cart), a blank line and the total, when no name holds a line break |
| `Utils.FormatWhatsAppOrderTotal` | lib/utils.ts:37-39 | the message ends with the total in decimal, which reads back as the sum of price times quantity |
| `Utils.WhatsAppLinkCarriesMessage` | lib/utils.ts:45-48 | with a '?'-free phone number the link has one query whose `text` decodes back to the message |
| `Utils.UpiLinkParameters` | lib/utils.ts:53-55 | with an '&'-free UPI id the link has exactly pa, pn, am, cu in order; pn decodes to the shop name and am reads back as the amount |
| `Utils.UpiLinkInjection` | lib/utils.ts:53-55 | the UPI id is not encoded: an '&' in it adds parameters of the id's choosing ahead of the real ones |
| `SubdomainCases.GenerateSubdomainExample` | lib/utils.ts:7-16 | "Ram's Cafe" becomes "rams-cafe" |
| `SubdomainCases.GenerateSubdomainJoinsWords` | lib/utils.ts:9-16 | two `[a-z0-9]` words with one space between them are joined by one hyphen |
| `SubdomainCases.GenerateSubdomainTrailingHyphen` | lib/utils.ts:9-24 | a name ending in " -" gives a subdomain ending in '-', which validation rejects |
| `SubdomainCases.WwwIsValidButNeverExtracted` | lib/utils.ts:21-85 | "www" passes validation, yet extraction never yields it |
| `SubdomainCases.ExtractSubdomainFirstOccurrence` | lib/utils.ts:71-74 | a host with ".localhost" twice keeps the second one in the tenant it yields |
| `SubdomainCases.LocalhostRootShadowed` | lib/utils.ts:71-85 | on root domain `<x>.localhost` the main site yields tenant `x`, and `<s>.<x>.localhost` never yields `s`, only a name of length \|s\| + 1 + \|x\| |
| `Middleware.SetParamGet` | middleware.ts:39-46 | after `searchParams.set(name, v)`, `get(name)` is `v` |
| `Middleware.SetParamSingle` | middleware.ts:39-46 | after `set`, the name has exactly one value |
| `Middleware.SetParamKeepsOthers` | middleware.ts:39-46 | after `set`, every pair of another name is still there, in order |
| `Middleware.SetParamOtherValues` | middleware.ts:39-46 | after `set`, the values of every other name are unchanged |
| `Middleware.TenantQuery` | middleware.ts:36-48 | the rewritten query carries the tenant as the only `subdomain` and keeps every other parameter |
| `Middleware.RouteCases` | middleware.ts:17-49 | no tenant, or an "/api" prefix, passes the request through; a "/dashboard" prefix keeps its path; any other path is rewritten to "/menu"; every rewrite carries the tenant |
| `Middleware.DefaultHostHasNoTenant` | middleware.ts:18-19 | the default "localhost:3000" names no tenant, whatever the root domain |
| `Middleware.MissingHostPassesThrough` | middleware.ts:18-28 | a missing or empty Host header lets every request through |
| `Middleware.TenantReachesMenu` | middleware.ts:17-49 | a request for `<s>.<domain>` on root domain `<domain>`, any ports, reaches the menu page of tenant `s` unless it is an API or dashboard path; proved for hosts that do not spell `127.0.0.1` and root domains not ending in `.localhost` |
| `Db.NewIdInjective` | lib/db.ts:57 | two generated ids with the same prefix are equal only for the same clock reading and random part |
| `Db.ApplyVendorPatch` | lib/db.ts:73 | `{ ...vendor, ...updates }` never changes id, subdomain or creation time |
| `Db.ApplyItemPatch` | lib/db.ts:114 | `{ ...item, ...updates }` never changes id, vendor or creation time |
| `Db.EmptyPatches` | lib/db.ts:73-114 | an empty update changes nothing |
| `Db.ItemsOfMeans` | lib/db.ts:80-86 | a truthy vendor id selects exactly that vendor's items; otherwise all items |
| `Db.ItemsOfOrder` | lib/db.ts:80-86 | the selection keeps stored order: a concatenation gives the selection of its front, then that of the rest, and a single item is kept exactly when it belongs to the vendor |
| `Db.ItemsInCreationOrder` | lib/db.ts:80-86 | two items created one after the other for a vendor are listed last, in creation order |
| `Db.CreateKeepsIdsDistinct` | lib/db.ts:52-65 | appending a vendor whose id is not in use keeps ids unique |
| `Db.CreateKeepsItemIdsDistinct` | lib/db.ts:93-106 | appending an item whose id is not in use keeps ids unique |
| `Db.UpdateKeepsVendorKeys` | lib/db.ts:67-77 | an update keeps every vendor's id and subdomain, so it keeps both unique |
| `Db.UpdateKeepsItemIds` | lib/db.ts:108-118 | an update keeps item ids unique |
| `Db.DeleteRemovesOne` | lib/db.ts:120-128 | with unique ids, deleting removes exactly that item and keeps the others in order |
| `Db.Store.GetVendors` | lib/db.ts:10-35 | the vendors file's records; an absent or unparsable file reads as the empty list |
| `Db.Store.GetAllItems` | lib/db.ts:10-23 | the items file's records; an absent or unparsable file reads as the empty list |
| `Db.Store.WriteVendors` | lib/db.ts:26-30 | the vendors file is replaced by the given list |
| `Db.Store.WriteItems` | lib/db.ts:26-30 | the items file is replaced by the given list |
| `Db.Store.GetVendorBySubdomain` | lib/db.ts:37-45 | None exactly when no vendor has that subdomain; otherwise the stored vendor at the first position holding it |
| `Db.Store.GetVendorById` | lib/db.ts:47-50 | None exactly when no vendor has that id; otherwise the stored vendor at the first position holding it |
| `Db.Store.GetMenuItems` | lib/db.ts:80-86 | the items of that vendor, or all items without a vendor id; equal to `ItemsOf`, whose order `Db.ItemsOfOrder` states |
| `Db.Store.GetMenuItemById` | lib/db.ts:88-91 | None exactly when no item has that id; otherwise the stored item at the first position holding it |
| `Db.Store.CreateVendor` | lib/db.ts:52-65 | the new vendor has the given fields, a generated id and the given time; it is appended, and the items file is untouched |
| `Db.Store.UpdateVendor` | lib/db.ts:67-77 | unknown id: None and nothing written; otherwise the first vendor with the id is replaced by the merged record, which is returned |
| `Db.Store.CreateMenuItem` | lib/db.ts:93-106 | the new item has the given fields, a generated id and the given time; it is appended, and the vendors file is untouched |
| `Db.Store.UpdateMenuItem` | lib/db.ts:108-118 | unknown id: None and nothing written; otherwise the first item with the id is replaced by the merged record, which is returned |
| `Db.Store.DeleteMenuItem` | lib/db.ts:120-128 | true exactly when some item had the id; then every item with it is removed, otherwise nothing is written; afterwards no item has the id |
| `VendorsApi.PostRejection` | app/api/vendors/route.ts:48-71 | accepted exactly when the four required fields are present, the subdomain is valid and no vendor has it; 409 exactly when only the last fails; otherwise 400 |
| `VendorsApi.PostKeepsRegistry` | app/api/vendors/route.ts:43-90 | a registration keeps subdomains unique and well formed, whatever the body |
| `VendorsApi.PostsKeepRegistry` | app/api/vendors/route.ts:43-90 | any run of registrations from a valid registry (the empty one included) keeps it valid |
| `VendorsApi.WwwCanBeRegistered` | app/api/vendors/route.ts:56-71 | "www" is accepted for registration, yet no host extracts to it |
| `VendorsApi.PatchFields` | app/api/vendors/route.ts:102-107 | an empty name, number or UPI id keeps the stored one; an empty address replaces it; id, subdomain and creation time never change |
| `VendorsApi.PatchKeepsRegistry` | app/api/vendors/route.ts:93-121 | a PATCH keeps the registry valid |
| `VendorsApi.Get` | app/api/vendors/route.ts:8-34 | a truthy subdomain is looked up first (404 exactly when no vendor has it), then a truthy id; neither gives 400 |
| `VendorsApi.Post` | app/api/vendors/route.ts:43-90 | an unparsable body gives 500; a rejection changes nothing; otherwise 201 with the new vendor appended; the vendors afterwards are `AfterPost` of those before |
| `VendorsApi.Patch` | app/api/vendors/route.ts:93-121 | 500, 400 without id, 404 for an unknown id (nothing written), otherwise 200 with the first vendor with that id merged |
| `CheckSubdomainApi.Check` | app/api/vendors/check-subdomain/route.ts:4-16 | 400 without a subdomain; otherwise available exactly when no vendor has that subdomain |
| `CheckSubdomainApi.AvailableIsNotTaken` | app/api/vendors/check-subdomain/route.ts:12-13 | a subdomain no vendor has is never refused with 409, and is accepted with the required fields and a valid format |
| `CheckSubdomainApi.CheckThenRegister` | app/api/vendors/check-subdomain/route.ts:4-16 | a check reporting the subdomain available, followed directly by a registration, is never answered 409, and gives 201 when the body is complete and valid |
| `MenuApi.PostRejection` | app/api/menu/route.ts:29-40 | accepted exactly when vendor id, name and category are truthy and the price is a non-negative number; every rejection is 400 |
| `MenuApi.PostedItem` | app/api/menu/route.ts:42-48 | a created item has a non-negative price and is available unless the body said false |
| `MenuApi.PatchFields` | app/api/menu/route.ts:70-75 | an empty name or category is ignored; a given price (also 0 or negative) and a given availability are applied; id, vendor, image and creation time stay |
| `MenuApi.PostKeepsPrices` | app/api/menu/route.ts:37-48 | POST keeps every stored price non-negative |
| `MenuApi.PatchBreaksPrices` | app/api/menu/route.ts:70-75 | PATCH can store a negative price |
| `MenuApi.Get` | app/api/menu/route.ts:11-21 | 400 without a vendor id; otherwise exactly that vendor's items, and the list is `KeepByKey` of the stored items, in stored order by `Seqs.KeepByKeyAppend` |
| `MenuApi.Post` | app/api/menu/route.ts:24-58 | 500 for an unparsable body, a rejection changes nothing, otherwise 201 with the new item appended; the vendors file is untouched |
| `MenuApi.Patch` | app/api/menu/route.ts:61-89 | 500, 400 without id, 404 for an unknown id (nothing written), otherwise 200 with the first item with that id merged |
| `MenuApi.Delete` | app/api/menu/route.ts:92-107 | 400 without id; 404 exactly when no item has the id (nothing written); otherwise 200 and the items without that id; afterwards no item has it |
| `MenuPage.ParamWins` | app/menu/page.tsx:20-28 | a truthy parameter other than "null" is the tenant loaded |
| `MenuPage.NullParamIsAbsent` | app/menu/page.tsx:20 | the parameter "null" is treated as no parameter |
| `MenuPage.LocalhostFallback` | app/menu/page.tsx:22-28 | without a parameter, `<s>.localhost` loads tenant `s` |
| `MenuPage.FallbackTakesFirstLabel` | app/menu/page.tsx:24-27 | on `<a>.<b>.localhost` the fallback loads tenant `a` |
| `MenuPage.NoFallbackOffLocalhost` | app/menu/page.tsx:22-28 | off localhost a missing parameter loads nothing |
| `MenuPage.Categories` | app/menu/page.tsx:56 | `menuItems.map(item => item.category)`: one entry per item, that item's category, in menu order |
| `MenuPage.Unique` | app/menu/page.tsx:56 | `[...new Set(values)]` has the same members, no repeats, and lists values in the order of their first appearance; these three fix the result |
| `MenuPage.CategoriesMeans` | app/menu/page.tsx:56 | the mapped categories are exactly the categories of the items |
| `MenuPage.TabsMeans` | app/menu/page.tsx:55-58 | the tabs are "All" followed by every category of the menu once, ordered by the first menu item of each category |
| `MenuPage.AllTabTwice` | app/menu/page.tsx:56 | a category named "All" makes a second "All" tab |
| `MenuPage.ShownMeans` | app/menu/page.tsx:60-63 | "All" shows every item; any other tab shows exactly the items of that category |
| `MenuPage.ShownOrder` | app/menu/page.tsx:60-63 | the shown items keep menu order: a concatenation shows its front's items, then the rest's, and one item is shown exactly when the tab is "All" or its category |
| `MenuPage.MapOneMatch` | app/menu/page.tsx:68-77 | with one line per item, both cart maps change exactly the line of that item |
| `MenuPage.AddExisting` | app/menu/page.tsx:65-72 | adding an item already in the cart raises its line by one; the count grows by 1 and the amount by its price |
| `MenuPage.AddNew` | app/menu/page.tsx:69-70 | adding a new item appends it with quantity 1; the count grows by 1 and the amount by its price |
| `MenuPage.AddToCartKeepsOk` | app/menu/page.tsx:65-72 | adding keeps quantities at least 1 and one line per item |
| `MenuPage.ChangeAbsent` | app/menu/page.tsx:74-80 | changing an id not in the cart changes nothing |
| `MenuPage.ChangeKeeps` | app/menu/page.tsx:74-80 | a change leaving a positive quantity sets that line to it and nothing else |
| `MenuPage.ChangeRemoves` | app/menu/page.tsx:74-80 | a change to 0 or below removes that line and keeps the others in order |
| `MenuPage.UpdateQuantityKeepsOk` | app/menu/page.tsx:74-80 | changing a quantity keeps quantities at least 1 and one line per item |
| `MenuPage.PerformKeepsOk` | app/menu/page.tsx:65-80 | any run of additions and changes keeps quantities at least 1 and one line per item |
| `MenuPage.TotalsUpdate` | app/menu/page.tsx:82-83 | changing one line changes both totals by that line's difference |
| `MenuPage.BumpTotals` | app/menu/page.tsx:82-83 | one more of a line adds one item and that item's price |
| `MenuPage.WhatsAppOrder` | app/menu/page.tsx:85-90 | a link is opened exactly when the vendor is loaded and the cart is not empty |
| `MenuPage.UpiPayment` | app/menu/page.tsx:92-96 | a payment link is followed exactly when the vendor is loaded and the total is not 0 |
| `MenuPage.FreeCart` | app/menu/page.tsx:85-96 | a cart of free items can be ordered but not paid for |

## Left out

- File I/O is not modelled: reading, the temporary file and the rename, and logging. A failing write, and the 500 a handler then sends, are left out too. A file reads as absent, unparsable or a list of records.
- Concurrency is not modelled. Requests run one at a time, so lost updates between two handlers are not captured. So is the gap between a free check and a registration made by another client in between.
- The clock, `Math.random` and `new Date().toISOString()` are parameters. Generated ids are therefore not proved fresh; id uniqueness is proved on the condition that the new id is not in use.
- Request bodies are typed records, not arbitrary JSON. A non-string name, a non-boolean `isAvailable`, or a PATCH price that is not a number are not modelled. A POST price other than a number is one case, `NotANumber`.
- `VendorsApi.PatchOf`: a PATCH body with `address: null` is stored as null by the source. The model has only an absent address (None) and string addresses, so that case is not modelled.
- Prices, quantities and amounts are integers. JavaScript floating point, fractional prices, and number rendering in exponent form are left out.
- `toLowerCase` is modelled on ASCII letters only. Other characters whose lower case contains ASCII letters are left out.
- The middleware's `config.matcher` and the `NextResponse` objects are reduced to a `Decision` value. The debug handler `PATCH_DEBUG` is not part of this model.
- React state and rendering, `fetch` of the vendor and menu, `window.open` and navigation are left out. The page's cart logic is modelled on values, as the source replaces the cart wholesale on every change.
- `Utils.ExtractSubdomainRoundTrip`: proved only for hosts that do not spell `127.0.0.1` and root domains not ending in `.localhost`. For example, tenant "127" on root domain "0.0.1" is not recovered. Under a `.localhost` root domain the source does not recover the tenant either, as `SubdomainCases.LocalhostRootShadowed` shows.
- `Utils.ExtractSubdomainMainSite`: proved only for root domains not ending in `.localhost`. On such a root domain the source routes the main site as a tenant, as `SubdomainCases.LocalhostRootShadowed` shows.
- `Middleware.TenantReachesMenu`: proved under the same two exclusions as `Utils.ExtractSubdomainRoundTrip`, for the same reasons.
- `CheckSubdomainApi.CheckThenRegister`: composes the two handlers with no write in between. An interleaved registration by another client is not modelled.
- The cart's stale `cart` closure in `addToCart`, as opposed to the `prev` updater in `updateQuantity`, is not modelled. Each change applies to the current cart.
