/** The JSON replies the API routes send, and the request bodies they read. */
module Http {
  import opened Types

  /** The JSON body of a reply. */
  datatype Payload =
    | Failure(error: string)
    | VendorRecord(vendor: Vendor)
    | ItemRecord(item: MenuItem)
    | ItemList(items: seq<MenuItem>)
    | Availability(available: bool)
    | Deleted

  /** `NextResponse.json(payload, { status })`; the status defaults to 200. */
  datatype Reply = Reply(status: nat, payload: Payload)

  /** `await request.json()`: a body that does not parse makes it throw. */
  datatype Body<T> = Unparsable | Parsed(fields: T)

  const InternalError := Reply(500, Failure("Internal server error"))
}
