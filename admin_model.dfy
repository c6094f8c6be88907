/** The Admin document and its model-level behaviour: the schema's required fields, the
    pre-save hook that hashes the password only when it was modified, and `matchPassword`. */
module AdminModel {
  import opened Wrappers
  import opened Tables
  import opened Bcrypt

  /** An Admin document; `photo` is optional (base64 text). The schema's timestamps are
      not modelled. */
  datatype Admin = Admin(id: Id, username: string, email: string, password: string,
                         department: string, photo: Option<string>)

  function AdminId(a: Admin): Id { a.id }
  function AdminEmail(a: Admin): string { a.email }

  /** The schema's `required` validators: username, email, password and department are
      present and non-empty; photo may be missing. */
  predicate HasRequiredFields(a: Admin): (ok: bool)
    ensures ok <==> "" !in [a.username, a.email, a.password, a.department]
  {
    a.username != "" && a.email != "" && a.password != "" && a.department != ""
  }

  /** Mongoose's `isModified("password")` when `doc` is saved over `stored`: every path of
      a new document counts as modified, otherwise the password must have changed. */
  predicate PasswordModified(stored: Option<Admin>, doc: Admin) {
    stored.None? || stored.value.password != doc.password
  }

  /** The pre-save hook: when the password was modified it is replaced by its hash;
      nothing else in the document changes. */
  function PreSave(doc: Admin, passwordModified: bool): (r: Admin)
    ensures r.(password := doc.password) == doc
    ensures passwordModified ==> IsHashed(r.password) && Compare(doc.password, r.password)
    ensures !passwordModified ==> r == doc
  {
    if passwordModified then doc.(password := Hash(doc.password)) else doc
  }

  /** `doc.save()` over the stored version (None for a new document): validation runs
      first and rejects a document missing a required field; then the hook; the result is
      what the collection holds afterwards. */
  function Save(stored: Option<Admin>, doc: Admin): (r: Option<Admin>)
    ensures r.Some? <==> HasRequiredFields(doc)
    ensures r.Some? ==> r.value.(password := doc.password) == doc
    ensures r.Some? && PasswordModified(stored, doc) ==> Compare(doc.password, r.value.password)
    ensures r.Some? && !PasswordModified(stored, doc) ==> r.value == doc
  {
    if !HasRequiredFields(doc) then None
    else Some(PreSave(doc, PasswordModified(stored, doc)))
  }

  /** `admin.matchPassword(entered)`: compares against the stored hash and changes nothing. */
  predicate MatchPassword(a: Admin, entered: string): (matched: bool)
    ensures matched ==> IsHashed(a.password)
    ensures matched <==> a.password == Hash(entered)
  {
    Compare(entered, a.password)
  }

  /** A new admin is stored with a hashed password that its own password matches. */
  lemma NewAdminMatchesOwnPassword(doc: Admin)
    requires HasRequiredFields(doc)
    ensures Save(None, doc).Some?
    ensures IsHashed(Save(None, doc).value.password)
    ensures MatchPassword(Save(None, doc).value, doc.password)
  {
  }

  /** Saving a stored admin after changing anything but the password keeps the hash, so
      the admin's password still matches. */
  lemma ResaveKeepsHash(stored: Admin, doc: Admin, entered: string)
    requires HasRequiredFields(doc) && doc.password == stored.password
    ensures Save(Some(stored), doc) == Some(doc)
    ensures MatchPassword(doc, entered) == MatchPassword(stored, entered)
  {
  }

  /** Setting the photo (or the username) and saving twice is the same as doing it once. */
  lemma ResaveIdempotent(stored: Admin, photo: Option<string>, username: string)
    requires HasRequiredFields(stored) && username != ""
    ensures var once := Save(Some(stored), stored.(photo := photo, username := username));
            && once.Some?
            && Save(once, once.value.(photo := photo, username := username)) == once
  {
  }
}
