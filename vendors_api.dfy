/**
 * `/api/vendors`: look a vendor up by subdomain or id, register a vendor,
 * and change a vendor's details. Registration is the only writer of
 * subdomains, and it refuses a subdomain that is malformed or already taken.
 */
module VendorsApi {
  import opened Basics
  import opened Seqs
  import opened Types
  import opened Utils
  import opened Db
  import opened Http

  /** The fields POST reads from the JSON body; None is a field that is absent or null. */
  datatype PostBody = PostBody(
    name: Option<string>, subdomain: Option<string>, whatsappNumber: Option<string>,
    upiId: Option<string>, address: Option<string>)

  /** The fields PATCH reads from the JSON body. */
  datatype PatchBody = PatchBody(
    id: Option<string>, name: Option<string>, whatsappNumber: Option<string>,
    upiId: Option<string>, address: Option<string>)

  const NotFound := Reply(404, Failure("Vendor not found"))

  /** The registry invariant: no two vendors share a subdomain, and every subdomain is well formed. */
  ghost predicate Registry(vendors: seq<Vendor>) {
    && DistinctBy(vendors, SubdomainKey)
    && forall j :: 0 <= j < |vendors| ==> ValidateSubdomain(vendors[j].subdomain)
  }

  predicate RequiredPresent(b: PostBody) {
    Truthy(b.name) && Truthy(b.subdomain) && Truthy(b.whatsappNumber) && Truthy(b.upiId)
  }

  /**
   * The checks POST makes before it creates anything, in the order it makes
   * them: required fields (400), subdomain format (400), subdomain taken (409).
   * None means the vendor is created.
   */
  function PostRejection(vendors: seq<Vendor>, b: PostBody): (r: Option<Reply>)
    ensures r.None? <==>
      && RequiredPresent(b)
      && ValidateSubdomain(b.subdomain.value)
      && forall j :: 0 <= j < |vendors| ==> vendors[j].subdomain != b.subdomain.value
    ensures r.Some? ==> r.value.status == 400 || r.value.status == 409
    ensures r.Some? && r.value.status == 409 <==>
      && RequiredPresent(b)
      && ValidateSubdomain(b.subdomain.value)
      && exists j :: 0 <= j < |vendors| && vendors[j].subdomain == b.subdomain.value
  {
    if !RequiredPresent(b) then Some(Reply(400, Failure("Missing required fields")))
    else if !ValidateSubdomain(b.subdomain.value) then Some(Reply(400, Failure("Invalid subdomain format")))
    else if FindByKey(vendors, SubdomainKey, b.subdomain.value).Some? then
      Some(Reply(409, Failure("Subdomain already taken")))
    else None
  }

  /** What POST hands to `createVendor`; `address || ''`. */
  function FieldsOf(b: PostBody): VendorFields
    requires RequiredPresent(b)
  {
    VendorFields(b.name.value, b.subdomain.value, b.whatsappNumber.value, b.upiId.value,
                 if Truthy(b.address) then b.address.value else "")
  }

  function NewVendor(b: PostBody, id: string, createdAt: string): Vendor
    requires RequiredPresent(b)
  {
    var f := FieldsOf(b);
    Vendor(id, f.name, f.subdomain, f.whatsappNumber, f.upiId, f.address, createdAt)
  }

  /** The vendor list after a POST whose body parsed. */
  function AfterPost(vendors: seq<Vendor>, b: PostBody, id: string, createdAt: string): seq<Vendor> {
    if PostRejection(vendors, b).None? then vendors + [NewVendor(b, id, createdAt)] else vendors
  }

  /** A POST keeps the registry invariant, whatever the body and the new id. */
  lemma PostKeepsRegistry(vendors: seq<Vendor>, b: PostBody, id: string, createdAt: string)
    requires Registry(vendors)
    ensures Registry(AfterPost(vendors, b, id, createdAt))
  {
    if PostRejection(vendors, b).None? {
      var v := NewVendor(b, id, createdAt);
      DistinctAppend(vendors, SubdomainKey, v);
      var after := vendors + [v];
      assert forall j :: 0 <= j < |vendors| ==> after[j] == vendors[j];
    }
  }

  /** One registration request: the body and the id and time the server gives it. */
  datatype Registration = Registration(body: PostBody, id: string, createdAt: string)

  function AfterPosts(vendors: seq<Vendor>, posts: seq<Registration>): seq<Vendor>
    decreases |posts|
  {
    if posts == [] then vendors
    else AfterPosts(AfterPost(vendors, posts[0].body, posts[0].id, posts[0].createdAt), posts[1..])
  }

  /**
   * From any registry (the empty one included), a run of registrations one
   * after another never lets two vendors share a subdomain.
   */
  lemma {:induction false} PostsKeepRegistry(vendors: seq<Vendor>, posts: seq<Registration>)
    requires Registry(vendors)
    ensures Registry(AfterPosts(vendors, posts))
    decreases |posts|
  {
    if posts != [] {
      PostKeepsRegistry(vendors, posts[0].body, posts[0].id, posts[0].createdAt);
      PostsKeepRegistry(AfterPost(vendors, posts[0].body, posts[0].id, posts[0].createdAt), posts[1..]);
    }
  }

  /** "www" passes the format check, so a vendor can register it, yet no host ever routes to it. */
  lemma WwwCanBeRegistered(b: PostBody, hostname: string, mainDomain: string)
    requires RequiredPresent(b) && b.subdomain == Some("www")
    ensures PostRejection([], b).None?
    ensures ExtractSubdomain(hostname, mainDomain) != Some("www")
  {
    SlugPatternIff("www");
  }

  /** `{ ...(name && { name }), ..., ...(address !== undefined && { address }) }` */
  function PatchOf(b: PatchBody): VendorPatch {
    VendorPatch(
      if Truthy(b.name) then b.name else None,
      if Truthy(b.whatsappNumber) then b.whatsappNumber else None,
      if Truthy(b.upiId) then b.upiId else None,
      b.address)
  }

  /**
   * An empty name, number or UPI id leaves the stored one in place, while an
   * empty address replaces the stored one; id, subdomain and creation time
   * never change.
   */
  lemma PatchFields(v: Vendor, b: PatchBody)
    ensures var r := ApplyVendorPatch(v, PatchOf(b));
      && r.id == v.id && r.subdomain == v.subdomain && r.createdAt == v.createdAt
      && r.name == (if Truthy(b.name) then b.name.value else v.name)
      && r.whatsappNumber == (if Truthy(b.whatsappNumber) then b.whatsappNumber.value else v.whatsappNumber)
      && r.upiId == (if Truthy(b.upiId) then b.upiId.value else v.upiId)
      && r.address == (if b.address.Some? then b.address.value else v.address)
  {
  }

  /** A PATCH keeps the registry invariant. */
  lemma PatchKeepsRegistry(vendors: seq<Vendor>, i: nat, b: PatchBody)
    requires Registry(vendors) && i < |vendors|
    ensures Registry(vendors[i := ApplyVendorPatch(vendors[i], PatchOf(b))])
  {
    UpdateKeepsVendorKeys(vendors, i, PatchOf(b));
  }

  function Found(r: Option<Vendor>): Reply {
    if r.Some? then Reply(200, VendorRecord(r.value)) else NotFound
  }

  /** `GET /api/vendors?subdomain=…&id=…`: a truthy subdomain is looked up first, then a truthy id. */
  method Get(store: Store, subdomain: Option<string>, id: Option<string>) returns (reply: Reply)
    ensures Truthy(subdomain) ==> reply == Found(FindByKey(store.Vendors(), SubdomainKey, subdomain.value))
    ensures Truthy(subdomain) ==>
      (reply.status == 404 <==> forall j :: 0 <= j < |store.Vendors()| ==> store.Vendors()[j].subdomain != subdomain.value)
    ensures !Truthy(subdomain) && Truthy(id) ==> reply == Found(FindByKey(store.Vendors(), VendorKey, id.value))
    ensures !Truthy(subdomain) && !Truthy(id) ==> reply == Reply(400, Failure("Subdomain or ID required"))
  {
    if Truthy(subdomain) {
      var vendor := store.GetVendorBySubdomain(subdomain.value);
      return Found(vendor);
    }
    if Truthy(id) {
      var vendor := store.GetVendorById(id.value);
      return Found(vendor);
    }
    reply := Reply(400, Failure("Subdomain or ID required"));
  }

  /** `POST /api/vendors` */
  method Post(store: Store, body: Body<PostBody>, stamp: nat, suffix: string, createdAt: string)
    returns (reply: Reply)
    modifies store
    ensures store.itemsFile == old(store.itemsFile)
    ensures body.Unparsable? ==> reply == InternalError && store.vendorsFile == old(store.vendorsFile)
    ensures body.Parsed? && PostRejection(old(store.Vendors()), body.fields).Some? ==>
      reply == PostRejection(old(store.Vendors()), body.fields).value
      && store.vendorsFile == old(store.vendorsFile)
    ensures body.Parsed? && PostRejection(old(store.Vendors()), body.fields).None? ==>
      var v := NewVendor(body.fields, NewId("vendor_", stamp, suffix), createdAt);
      reply == Reply(201, VendorRecord(v)) && store.vendorsFile == Holds(old(store.Vendors()) + [v])
    ensures body.Parsed? ==>
      store.Vendors() == AfterPost(old(store.Vendors()), body.fields, NewId("vendor_", stamp, suffix), createdAt)
  {
    if body.Unparsable? {
      return InternalError;
    }
    var b := body.fields;
    if !RequiredPresent(b) {
      return Reply(400, Failure("Missing required fields"));
    }
    if !ValidateSubdomain(b.subdomain.value) {
      return Reply(400, Failure("Invalid subdomain format"));
    }
    var existing := store.GetVendorBySubdomain(b.subdomain.value);
    if existing.Some? {
      return Reply(409, Failure("Subdomain already taken"));
    }
    var vendor := store.CreateVendor(FieldsOf(b), stamp, suffix, createdAt);
    reply := Reply(201, VendorRecord(vendor));
  }

  /** `PATCH /api/vendors` */
  method Patch(store: Store, body: Body<PatchBody>) returns (reply: Reply)
    modifies store
    ensures store.itemsFile == old(store.itemsFile)
    ensures body.Unparsable? ==> reply == InternalError && store.vendorsFile == old(store.vendorsFile)
    ensures body.Parsed? && !Truthy(body.fields.id) ==>
      reply == Reply(400, Failure("Vendor ID required")) && store.vendorsFile == old(store.vendorsFile)
    ensures (body.Parsed? && Truthy(body.fields.id)
             && IndexOfKey(old(store.Vendors()), VendorKey, body.fields.id.value).None?) ==>
      reply == NotFound && store.vendorsFile == old(store.vendorsFile)
    ensures (body.Parsed? && Truthy(body.fields.id)
             && IndexOfKey(old(store.Vendors()), VendorKey, body.fields.id.value).Some?) ==>
      var i := IndexOfKey(old(store.Vendors()), VendorKey, body.fields.id.value).value;
      var v := ApplyVendorPatch(old(store.Vendors())[i], PatchOf(body.fields));
      reply == Reply(200, VendorRecord(v)) && store.vendorsFile == Holds(old(store.Vendors())[i := v])
  {
    if body.Unparsable? {
      return InternalError;
    }
    var b := body.fields;
    if !Truthy(b.id) {
      return Reply(400, Failure("Vendor ID required"));
    }
    var vendor := store.UpdateVendor(b.id.value, PatchOf(b));
    if vendor.None? {
      return NotFound;
    }
    reply := Reply(200, VendorRecord(vendor.value));
  }
}
