# Student Grievance Portal: a verified model of the back end's core

This project models the request handlers and data models behind the Student Grievance
Portal's REST API. It covers the authentication routes (`backend/routes/auth.js`), the
complaint routes (`backend/routes/complaint.js`) and the two Mongoose models they write
(`backend/models/Admin.js`, `backend/models/Complaint.js`).

Each router is a class that owns its collections:

- `Auth.AuthRouter` holds the users and the admins.
- `ComplaintRoutes.ComplaintRouter` holds the complaints and the outbox of mails handed to
  `sendMail`. It reads the admins from the account store it was built over.

A collection is a sequence in insertion order. The model takes this as the order in which
queries return documents; it is one order MongoDB may use, since without a sort MongoDB
guarantees none. Ids come
from a per-collection counter. Each handler is a method. It returns the HTTP status code
and states the new state of the collections for every branch of the handler: the 400, 401,
403, 404 and 500 answers as well as the success path. The class invariants are
`AuthRouter.Valid` and `ComplaintRouter.Valid`. They say that ids are distinct and below
the counter, that the e-mail addresses in each account collection are distinct, that
stored admins pass the schema and hold hashed passwords, and that stored complaints pass
the schema.

The modules are:

- `Wrappers`: optional values.
- `Http`: request fields and status codes.
- `Text`: JavaScript's `trim`, `toLowerCase`, `startsWith` and the substring test.
- `Bcrypt`: hash and compare.
- `Base64`: the encoding of section 4 of RFC 4648, with a decoder and a round-trip proof.
- `Tables`: `find`, `findOne` and delete over a collection, with their invariants.
- `Mailer`: a mail.
- `AdminModel`, `ComplaintModel`: the two schemas and the admin pre-save hook.
- `Auth`, `ComplaintRoutes`: the routers.
- `Scenarios`: request sequences from an empty store, with the responses they get.

### Behaviour as written

- **Submissions with files fail.** Every submission that carries files is answered with
  500. The create handler builds each attachment from the file's name, MIME type and
  bytes (`data`). The Complaint schema declares `filename`, `contentType` and a
  *required* `path`, and no `data`. So validation rejects the document whenever the
  upload holds at least one file, although attachments are evidently meant to be stored
  with their bytes. `ComplaintRoutes.UploadsFailValidation` states
  this, and `Scenarios.SubmitWithAttachment` shows it end to end.
- **Status edits bypass the allow-list.** The status route checks its allow-list. The
  student edit route copies any `status` it is given, and the schema does not constrain
  it. `ComplaintRoutes.EditBypassesAllowList` and `Scenarios.StatusAllowListBypass` state
  this.
- **Mail failures are swallowed.** `sendMail` catches its own transport errors, so no
  mail failure reaches a handler. That includes the status-update path, where a
  failed send was evidently meant to reach the caller. A send is an append to the outbox.

## Model

| member | source | states |
|---|---|---|
| Text.TrimSpec | backend/routes/auth.js:33 | `trim()` leaves no whitespace at either end, and what it removes is a whitespace prefix and a whitespace suffix around the kept middle of the string |
| Text.TrimIdempotent | backend/routes/auth.js:81 | trimming an already trimmed value changes nothing |
| Text.TrimIgnoresPadding | backend/routes/auth.js:33 | whitespace added around a value does not change its trim |
| Text.TrimLowerCommute | backend/routes/auth.js:27 | trimming and lower-casing commute |
| Text.NormalizeEmailIgnoresCaseAndPadding | backend/routes/auth.js:27 | two addresses that differ only in letter case and surrounding whitespace have the same lookup key `email.trim().toLowerCase()` |
| Text.NormalizeEmailTrimmed | backend/routes/auth.js:32 | a stored address key has no whitespace at either end |
| Text.NormalizeEmailIdempotent | backend/routes/auth.js:57 | normalising a stored key gives the key back, so a stored address finds itself |
| Bcrypt.Hash | backend/routes/auth.js:84-85 | a fresh hash starts with "$2", holds the header and the salt followed by the first 72 characters of the password, and compares equal to the password it was made from |
| Bcrypt.Key | backend/routes/auth.js:78 | bcrypt reads all of a password of at most 72 characters, and exactly the first 72 characters of a longer password |
| Bcrypt.Compare | backend/routes/auth.js:78 | `compare` is true only for a text that starts with "$2" and is long enough to hold a header and a salt |
| Bcrypt.CompareSameKey | backend/routes/auth.js:78 | a hash accepts exactly the passwords that share their first 72 characters with a password it accepts |
| Bcrypt.LongPasswordsShareHash | backend/routes/auth.js:78 | two passwords that agree on their first 72 characters are each accepted by the hash of the other, whatever follows |
| Bcrypt.DoubleHashRejected | backend/routes/auth.js:84-85 | a password does not match the hash of its own hash, unless it is 72 characters or longer and itself begins with the header and the salt |
| Base64.Encode | backend/routes/auth.js:224 | the encoding has four characters for every three bytes, counting a last partial group |
| Base64.EncodeAlphabet | backend/routes/auth.js:224 | only the 64 alphabet characters and '=' occur in an encoding |
| Base64.DecodeEncode | backend/routes/auth.js:217 | decoding the stored photo text gives back exactly the uploaded bytes, so the encoding loses nothing |
| Tables.Filter | backend/routes/complaint.js:163 | `find` returns exactly the documents that match, and no more documents than the collection has |
| Tables.FindFirst | backend/routes/auth.js:27 | `findOne` gives the first matching position, or nothing exactly when no document matches |
| Tables.FilterAppend | backend/routes/complaint.js:163 | after an insertion, a query lists the new document last exactly when it matches |
| Tables.FilterKeepsDistinct | backend/routes/auth.js:14 | deleting documents by a filter keeps a unique index unique |
| Tables.RemoveAt | backend/routes/complaint.js:97 | `findByIdAndDelete` removes exactly the document with that id; the others stay, in order, and ids stay unique |
| AdminModel.PreSave | backend/models/Admin.js:13-18 | the hook replaces a modified password by a hash the password matches, and leaves every other field, or an unmodified document, as it was |
| AdminModel.Save | backend/models/Admin.js:4-18 | a save succeeds exactly when the required fields are non-empty; the password is hashed exactly when it was modified, and nothing else changes |
| AdminModel.HasRequiredFields | backend/models/Admin.js:5-8 | an admin passes the required validators exactly when none of username, email, password and department is empty; the photo is optional |
| AdminModel.MatchPassword | backend/models/Admin.js:21-23 | `matchPassword` accepts an entry exactly when the stored password is that entry's hash, so only a hashed password ever matches |
| AdminModel.NewAdminMatchesOwnPassword | backend/models/Admin.js:13-23 | a newly saved admin holds a hash that `matchPassword` accepts for the admin's own password |
| AdminModel.ResaveKeepsHash | backend/models/Admin.js:14 | re-saving an admin whose password is unchanged keeps the hash, so the same passwords still match |
| AdminModel.ResaveIdempotent | backend/models/Admin.js:13-18 | setting the photo or username and saving twice is the same as doing it once |
| ComplaintModel.AttachmentValid | backend/models/Complaint.js:12-16 | an attachment is valid exactly when its filename and content type are non-empty and its path is present and non-empty |
| ComplaintModel.SchemaValid | backend/models/Complaint.js:4-16 | a complaint is valid exactly when none of its seven required fields is empty and every attachment is valid; the status is not constrained |
| ComplaintModel.NewComplaint | backend/models/Complaint.js:3-17 | a new complaint takes the next id and status "Pending", stores the seven request fields as given (student id, name, e-mail, type, department, date, text), and it passes validation exactly when the seven required fields are truthy and every attachment is valid |
| ComplaintModel.StatusUnconstrained | backend/models/Complaint.js:11 | any status string keeps a valid complaint valid |
| Auth.PhotoOrNull | backend/routes/auth.js:107 | the reported photo is the stored one when it is set and non-empty, and null otherwise |
| Auth.StudentView | backend/routes/auth.js:100-108 | the student login's `user` object is flagged as not an admin and carries the account's id, e-mail, username, student id and department, with the photo as `photo \|\| null` |
| Auth.AdminView | backend/routes/auth.js:169-176 | the admin login's `user` object is flagged as an admin and carries the account's id, e-mail, username and department, with the photo as `photo \|\| null` |
| Auth.CheckStudentPassword | backend/routes/auth.js:75-95 | a stored "$2" hash accepts exactly the entries whose trim matches it; plain text accepts exactly the entries equal to it after trimming, and then yields a hash that the trimmed entry matches |
| Auth.LegacyMigrationThenHashedLogin | backend/routes/auth.js:76-89 | after a legacy password has been migrated, the same entry is accepted through the hashed branch |
| Auth.IncompleteHashRejected | backend/routes/auth.js:76-78 | a stored text that starts with "$2" but is shorter than a header and a salt (29 characters) accepts no entry |
| Auth.SameKeyAccepted | backend/routes/auth.js:76-78 | against the hash of a password, every entry whose trim agrees with that password on the first 72 characters is accepted |
| Auth.HashingUserSaveBreaksMigration | backend/routes/auth.js:85-86 | if the User save hashed a modified password, the migrated hash would be hashed again and the same entry would be refused at the next login (except a trimmed entry of 72 characters or longer that itself begins with the header and the salt) |
| Auth.RegisteredPasswordAccepted | backend/routes/auth.js:33 | a plain-text stored password, as registration stores it, logs in through the legacy branch with any entry that has the same trim |
| Auth.AuthRouter.DeleteAllStudents | backend/routes/auth.js:12-20 | the remaining users are exactly the old ones without role "student", in order; the count is the number removed; admins are untouched |
| Auth.AuthRouter.Register | backend/routes/auth.js:23-45 | an address key that is already taken gives 400, and a missing e-mail or password gives 500; otherwise exactly one user is appended, with the normalised e-mail and the trimmed password |
| Auth.AuthRouter.Login | backend/routes/auth.js:50-114 | a falsy field gives 400 and an unknown key 401; otherwise the password check decides between 401 and 200 with the student view; on a legacy match only that user's password is replaced by the hash |
| Auth.AuthRouter.RegisterAdmin | backend/routes/auth.js:119-139 | a taken key gives 400, a missing e-mail or password 500, and a failed validation 500; otherwise the saved (hashed) admin is appended |
| Auth.AuthRouter.AdminLogin | backend/routes/auth.js:144-182 | a falsy field gives 400; no admin with that key and department gives 401; the matching admin gives 200 with the admin view exactly when the trimmed password matches; nothing is written |
| Auth.AuthRouter.UploadPhoto | backend/routes/auth.js:188-233 | a falsy e-mail or a missing file gives 400; the user with that key, or else the admin with it, gets the base64 text of the bytes as photo; neither gives 404 |
| Auth.AuthRouter.SetUserPhoto | backend/routes/auth.js:224-226 | only that user's photo changes |
| Auth.AuthRouter.SetAdminPhoto | backend/routes/auth.js:217-219 | only that admin's photo changes; the hook leaves the hash alone |
| Auth.AuthRouter.UpdateProfile | backend/routes/auth.js:238-259 | a falsy field gives 400 and an unknown key 404; a name that is blank after trimming fails validation with 500; otherwise only that admin's username becomes the trimmed name |
| ComplaintRoutes.FileFilter | backend/routes/complaint.js:11-28 | a file is accepted exactly when its MIME type is one of the eight listed types |
| ComplaintRoutes.UploadAccepted | backend/routes/complaint.js:29-33 | the upload middleware lets a request through exactly when every file has an allowed type and at most 10 MiB; a request without files always passes |
| ComplaintRoutes.AttachmentsAsBuilt | backend/routes/complaint.js:110-114 | one attachment per uploaded file, in order, with its original name and MIME type and no `path` |
| ComplaintRoutes.UploadsFailValidation | backend/routes/complaint.js:110-127 | a submission with at least one file never passes the schema |
| ComplaintRoutes.IsAllowedStatus | backend/routes/complaint.js:39 | a status is allowed exactly when it is one of Pending, Resolved, Rejected and InProgress |
| ComplaintRoutes.StatusUpdateMail | backend/routes/complaint.js:51-55 | the mail goes to the complainant and its text contains the new status and the complaint text |
| ComplaintRoutes.ConfirmationMail | backend/routes/complaint.js:132-136 | the confirmation goes to the submitter and its text contains the complaint text |
| ComplaintRoutes.AdminNotificationMail | backend/routes/complaint.js:145-149 | the notification goes to the given admin and its text contains the complaint text |
| ComplaintRoutes.Recipients | backend/routes/complaint.js:143 | the admins found are exactly those whose department equals the lower-cased complaint type |
| ComplaintRoutes.AdminNotifications | backend/routes/complaint.js:144-150 | one notification per admin found, in order |
| ComplaintRoutes.NotificationsReachDepartment | backend/routes/complaint.js:143-150 | every notification goes to an admin whose department is the lower-cased complaint type, and every such admin gets one |
| ComplaintRoutes.NoAdminsNoNotifications | backend/routes/complaint.js:143-150 | with no admin in that department, no notification is sent |
| ComplaintRoutes.AdminNotificationsAppend | backend/routes/complaint.js:144-150 | the notifications for one more admin are the earlier ones followed by that admin's mail |
| ComplaintRoutes.ApplyPatch | backend/routes/complaint.js:67-76 | every field the body sets is overwritten, and the id, the owner and the attachments are kept |
| ComplaintRoutes.EmptyPatchIsIdentity | backend/routes/complaint.js:76 | a body that sets nothing leaves the complaint unchanged |
| ComplaintRoutes.EditBypassesAllowList | backend/routes/complaint.js:76-77 | an edit that sets any status string, allowed or not, keeps a valid complaint valid and stores that status |
| ComplaintRoutes.BlankFieldFailsValidation | backend/routes/complaint.js:76-77 | an edit that blanks a required field fails validation |
| ComplaintRoutes.InsertKeepsValid | backend/routes/complaint.js:127 | inserting a valid document under the next id keeps the collection's invariant |
| ComplaintRoutes.ComplaintRouter.FindById | backend/routes/complaint.js:43 | finds nothing exactly when no complaint has that id, and otherwise the only position with that id |
| ComplaintRoutes.ComplaintRouter.UpdateStatus | backend/routes/complaint.js:36-62 | a status outside the allow-list gives 400 and an unknown id 404; otherwise only that complaint's status changes and exactly one status mail is sent |
| ComplaintRoutes.ComplaintRouter.EditByStudent | backend/routes/complaint.js:65-83 | an unknown id gives 404 and a non-owner 403; a patch that breaks validation gives 500; otherwise only that complaint becomes the patched one; no mail is sent |
| ComplaintRoutes.ComplaintRouter.DeleteByStudent | backend/routes/complaint.js:86-103 | an unknown id gives 404 and a non-owner 403; otherwise exactly the complaint with that id is removed and the rest stay, in order |
| ComplaintRoutes.ComplaintRouter.Create | backend/routes/complaint.js:106-157 | a refused upload or an invalid document gives 500 and changes nothing; otherwise the "Pending" document is appended, then the confirmation and one notification per admin of the department are sent, in order |
| ComplaintRoutes.ComplaintRouter.NotifyAdmins | backend/routes/complaint.js:144-150 | the loop sends exactly the notifications for the admins found, in order |
| ComplaintRoutes.ComplaintRouter.ListByStudent | backend/routes/complaint.js:161-169 | the result is exactly that student's complaints, in collection order |
| ComplaintRoutes.ComplaintRouter.List | backend/routes/complaint.js:170-184 | the result is exactly the complaints of the given department, or all of them when no department is given |
| ComplaintRoutes.ComplaintRouter.Search | backend/routes/complaint.js:187-201 | the result is exactly the complaints whose type contains the query, ignoring case, or all of them when the query is empty |
| Scenarios.RegisterTwice | backend/routes/auth.js:23-45 | a second registration under the same address, written with other case or padding, gets 400 and stores nothing |
| Scenarios.LegacyLoginMigrates | backend/routes/auth.js:75-95 | a student with a plain-text password logs in; the stored password becomes a hash; the same password is then accepted through the hashed branch |
| Scenarios.AdminRegisterThenLogin | backend/routes/auth.js:119-182 | an admin registered with all fields logs in with the same password and department and is reported as an admin |
| Scenarios.SubmitThenList | backend/routes/complaint.js:106-169 | a submission with no admin in its department is stored as "Pending" and listed for its student; only the confirmation is sent |
| Scenarios.SubmitThenResolve | backend/routes/complaint.js:36-62 | resolving a stored complaint answers 200 and mails the complainant a text containing "Resolved" and the complaint |
| Scenarios.OwnerDeletes | backend/routes/complaint.js:86-103 | another student gets 403; the owner's delete then empties the collection |
| Scenarios.StatusAllowListBypass | backend/routes/complaint.js:36-83 | a status the status route refuses with 400 is stored by the owner's edit with 200 |
| Scenarios.SubmitWithAttachment | backend/routes/complaint.js:106-127 | a submission whose file passes the filter and the size limit still gets 500; nothing is stored and no mail is sent |

## Left out

- The User schema: `backend/models/User.js` is not part of this model. User documents
  are stored as the request gives them. Saving them neither validates, nor hashes, nor
  fills in defaults. Several results rest on this choice: the legacy branch of
  `Auth.AuthRouter.Login`, `Auth.RegisteredPasswordAccepted`,
  `Auth.LegacyMigrationThenHashedLogin` and `Scenarios.LegacyLoginMigrates` hold only if
  the User save stores the re-hashed password as given. Under a hashing save hook like the
  Admin one, the second login after a migration would be refused
  (`Auth.HashingUserSaveBreaksMigration`). Likewise, `Auth.AuthRouter.DeleteAllStudents`
  never removes a user registered without a `role`, because no default role is assumed.
- Bcrypt salt generation and cost: a hash is the bcrypt header, one fixed salt, and then
  the password's first 72 characters as its digest. This keeps the facts the handlers rely
  on: a hash starts with "$2", a password matches its own hash and every hash made from a
  password with the same first 72 characters, and a text too short for a header and a
  salt matches nothing. Timing and collision resistance are not modelled. Because the salt
  is fixed, `Bcrypt.DoubleHashRejected` needs an exception for a password of 72 characters or
  more that itself begins with the header and the salt; with random salts that case would not arise.
- Bcrypt.Key: the 72-byte limit is counted in characters. This agrees with bcryptjs only
  for passwords of ASCII characters; a password with multi-byte UTF-8 characters reaches
  the limit earlier in bcryptjs.
- Bcrypt.Compare: a real bcrypt hash is always 60 characters long, but a model hash grows
  with its password. A stored plain text of the exact form header, salt, password is
  therefore accepted for that password, where bcryptjs accepts only a well-formed
  60-character hash.
- Text.ToLower: it lower-cases the ASCII letters only. JavaScript's full Unicode case
  mapping is left out.
- ComplaintRoutes.ComplaintRouter.Search: the query is matched as a literal substring,
  ignoring ASCII case. Regular-expression metacharacters in the query are not
  interpreted. An invalid pattern, which would throw and answer 500, is not modelled.
- Dates: `date` is kept as the request text. Mongoose's cast to `Date`, its cast errors,
  and the text form of a date inside the confirmation mail are not modelled.
- Ids: ids are natural numbers from a counter. ObjectId syntax and the cast error an
  invalid id raises (answered with 500) are not modelled.
- Database failures and concurrency: database and connection errors (the `catch`
  branches answering 500) and concurrent requests are not modelled. Each request runs to
  completion on its own.
- Logging: console output is not modelled.
- Request values: a body or query value is absent or a string. Numbers, arrays, objects,
  and the exceptions `trim()` raises on them are not modelled.
- ComplaintRoutes.ApplyPatch: an explicit `null` in an edit body is treated like an
  absent field. Edit bodies that set `attachments`, `_id` or unknown keys are not
  modelled.
- The multipart layer: streaming is left out. For a photo upload, `file` is the single part
  received under the field "photo" (`authUpload.single("photo")`), or none. The `req.files`
  fallbacks in the handler are never reached under `.single`.
- Unexpected upload fields: a file under another field name, or a second file, makes
  multer answer 500 before the handler runs. The model does not represent such requests.
- The admin pre-save hook: it is modelled as a function on the document's value
  (`AdminModel.Save`), not as in-place mutation of a Mongoose document.
- The schemas' `createdAt`/`updatedAt` timestamps are left out.
- The unique index on the admin e-mail is kept as an invariant that the registration
  check maintains. The duplicate-key error it raises under a race is not modelled.
- The mail transport (SMTP setup, sender address, delivery) is outside the model.
  `sendMail` swallows transport errors, so a send is an append to the outbox.
- The server bootstrap, static files, the seed script for an admin and the front end are
  outside the model.
