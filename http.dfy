/** What the route handlers see of an HTTP exchange: request values and response status codes. */
module Http {
  import opened Wrappers

  /** A value taken from a JSON body, a query string or a multipart form: absent
      (`undefined` or `null` in JavaScript) or a string. */
  type Field = Option<string>

  /** JavaScript truthiness of a field: absent values and the empty string are falsy. */
  predicate Truthy(f: Field) {
    f.Some? && f.value != ""
  }

  /** The string a field holds, with an absent field read as the empty string. Mongoose's
      `required` validator rejects both alike, so documents are built with this. */
  function TextOf(f: Field): (s: string)
    ensures s == "" <==> !Truthy(f)
  {
    if f.Some? then f.value else ""
  }

  const OK: int := 200
  const Created: int := 201
  const BadRequest: int := 400
  const Unauthorized: int := 401
  const Forbidden: int := 403
  const NotFound: int := 404
  const ServerError: int := 500
}
