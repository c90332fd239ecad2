/**
 * The JSON responses the document routes send, with their HTTP status.
 * Flask's `jsonify` and routing are not modelled; a response is a value.
 */
module Http {
  import opened Wrappers

  /** One element of the listing: `{id, name, date, path, codigos_extraidos}`. */
  datatype ListRow = ListRow(id: int, name: string, date: Option<string>, path: Option<string>, codigos: Option<string>)

  datatype Body =
    | ErrorBody(error: string)          // {"error": ...}
    | Uploaded(id: int)                 // {"ok": true, "id": ...}
    | Listing(rows: seq<ListRow>)       // [{...}, ...]
    | Deleted                           // {"ok": true}
    | NotDeleted(error: string)         // {"ok": false, "error": ...}
    | InternalServerError               // Flask's own page for an exception no handler caught

  datatype Response = Response(status: int, body: Body)

  const InvalidTenantMessage: string := "Inquilino no válido o no especificado"

  /** What the tenant gate answers to a request it refuses. */
  const Forbidden: Response := Response(403, ErrorBody(InvalidTenantMessage))
}
