/**
 * `/api/vendors/check-subdomain`: whether a subdomain is still free. The
 * lookup is exact (case-sensitive, no normalisation) and reads only.
 */
module CheckSubdomainApi {
  import opened Basics
  import opened Types
  import opened Utils
  import opened Db
  import opened Http
  import VendorsApi

  /** `GET /api/vendors/check-subdomain?subdomain=…` */
  method Check(store: Store, subdomain: Option<string>) returns (reply: Reply)
    ensures !Truthy(subdomain) ==> reply == Reply(400, Failure("Subdomain is required"))
    ensures Truthy(subdomain) ==> reply.status == 200 && reply.payload.Availability?
    ensures Truthy(subdomain) ==>
      (reply.payload.available <==>
        forall j :: 0 <= j < |store.Vendors()| ==> store.Vendors()[j].subdomain != subdomain.value)
  {
    if !Truthy(subdomain) {
      return Reply(400, Failure("Subdomain is required"));
    }
    var vendor := store.GetVendorBySubdomain(subdomain.value);
    var available := vendor.None?;
    reply := Reply(200, Availability(available));
  }

  /**
   * A subdomain reported free is not refused as taken by a registration
   * that follows with no write in between; with the required fields and a
   * well-formed subdomain the registration succeeds.
   */
  lemma AvailableIsNotTaken(vendors: seq<Vendor>, b: VendorsApi.PostBody)
    requires Truthy(b.subdomain)
    requires forall j :: 0 <= j < |vendors| ==> vendors[j].subdomain != b.subdomain.value
    ensures VendorsApi.PostRejection(vendors, b).Some? ==> VendorsApi.PostRejection(vendors, b).value.status == 400
    ensures VendorsApi.RequiredPresent(b) && ValidateSubdomain(b.subdomain.value) ==>
      VendorsApi.PostRejection(vendors, b).None?
  {
  }

  /** The check and the registration one after the other, as the sign-up form runs them. */
  method CheckThenRegister(store: Store, b: VendorsApi.PostBody, stamp: nat, suffix: string, createdAt: string)
    returns (check: Reply, post: Reply)
    modifies store
    ensures check.payload.Availability? && check.payload.available ==> post.status != 409
    ensures (check.payload.Availability? && check.payload.available
             && VendorsApi.RequiredPresent(b) && ValidateSubdomain(b.subdomain.value)) ==> post.status == 201
  {
    check := Check(store, b.subdomain);
    ghost var before := store.Vendors();
    post := VendorsApi.Post(store, Parsed(b), stamp, suffix, createdAt);
    if check.payload.Availability? && check.payload.available {
      AvailableIsNotTaken(before, b);
    }
  }
}
