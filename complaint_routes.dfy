/** The complaint routes: the upload filter, the status update against an allow-list, the
    owner-guarded edit and delete, creation with its notification mails, and the three
    listings. The complaints collection and the outgoing mail are fields of one router
    object; the admins are read from the account store the auth routes maintain. */
module ComplaintRoutes {
  import opened Wrappers
  import opened Http
  import opened Text
  import opened Tables
  import opened Mailer
  import opened AdminModel
  import opened ComplaintModel
  import opened Auth
  import Base64

  // ---------------------------------------------------------------- uploads

  /** The MIME types the upload filter lets through: images, PDF, Word documents and
      plain text. */
  const AllowedMimeTypes: seq<string> := [
    "image/jpeg",
    "image/png",
    "image/gif",
    "image/webp",
    "application/pdf",
    "application/msword",
    "application/vnd.openxmlformats-officedocument.wordprocessingml.document",
    "text/plain"
  ]

  /** The upload size limit per file: 10 MiB. */
  const MaxFileSize: nat := 10 * 1024 * 1024

  /** `fileFilter`: a file is accepted exactly when its MIME type is one of the eight
      allowed types. */
  function FileFilter(mimetype: string): (accepted: bool)
    ensures accepted <==>
      || mimetype == "image/jpeg" || mimetype == "image/png" || mimetype == "image/gif"
      || mimetype == "image/webp" || mimetype == "application/pdf"
      || mimetype == "application/msword"
      || mimetype == "application/vnd.openxmlformats-officedocument.wordprocessingml.document"
      || mimetype == "text/plain"
  {
    mimetype in AllowedMimeTypes
  }

  /** A file of the multipart field `files`, held in memory. */
  datatype UploadedFile = UploadedFile(originalname: string, mimetype: string, buffer: seq<Base64.byte>)

  /** The upload middleware lets the request through: every file passes the filter and
      the size limit. Otherwise its error reaches Express's default handler (500) before
      the route handler runs. */
  predicate UploadAccepted(files: seq<UploadedFile>): (accepted: bool)
    ensures files == [] ==> accepted
    ensures accepted <==> forall f :: f in files ==> FileFilter(f.mimetype) && |f.buffer| <= MaxFileSize
  {
    forall k :: 0 <= k < |files| ==> FileFilter(files[k].mimetype) && |files[k].buffer| <= MaxFileSize
  }

  /** The attachment list the create handler builds: one entry per uploaded file, in
      upload order, with the original name and MIME type. The handler supplies the bytes
      under `data`, which the schema does not declare, and no `path`. */
  function AttachmentsAsBuilt(files: seq<UploadedFile>): (r: seq<Attachment>)
    ensures |r| == |files|
    ensures forall k :: 0 <= k < |r| ==>
              r[k].filename == files[k].originalname && r[k].contentType == files[k].mimetype
              && r[k].path.None?
  {
    seq(|files|, k requires 0 <= k < |files| => Attachment(files[k].originalname, files[k].mimetype, None))
  }

  /** A submission carrying at least one file never passes validation, because its
      attachments lack the required `path`; the create handler answers 500 for it. */
  lemma UploadsFailValidation(id: Id, studentId: Field, name: Field, email: Field, complaintType: Field,
                              department: Field, date: Field, complaintText: Field,
                              files: seq<UploadedFile>)
    requires files != []
    ensures !SchemaValid(NewComplaint(id, studentId, name, email, complaintType, department, date,
                                      complaintText, AttachmentsAsBuilt(files)))
  {
    var attachments := AttachmentsAsBuilt(files);
    assert !AttachmentValid(attachments[0]);
  }

  // ---------------------------------------------------------------- status

  /** The statuses the status route accepts. */
  const StatusAllowList: seq<string> := ["Pending", "Resolved", "Rejected", "InProgress"]

  /** `[...].includes(status)`: a string equal to one of the four statuses. */
  function IsAllowedStatus(status: Field): (allowed: bool)
    ensures allowed <==> status == Some("Pending") || status == Some("Resolved")
                         || status == Some("Rejected") || status == Some("InProgress")
  {
    status.Some? && status.value in StatusAllowList
  }

  // ---------------------------------------------------------------- mail

  /** The mail to the complainant after a status change. Its body names the new status
      and repeats the complaint text. */
  function StatusUpdateMail(c: Complaint, status: string): (m: Mail)
    ensures m.to == c.email && m.subject == "Complaint Status Update"
    ensures IsSubstring(status, m.text) && IsSubstring(c.complaintText, m.text)
  {
    var head := "Your complaint status has been updated to: ";
    var tail := "\n\nComplaint Details:\n";
    assert head + status + tail + c.complaintText == head + status + (tail + c.complaintText);
    SubstringOfConcat(head, status, tail + c.complaintText);
    assert head + status + tail + c.complaintText + "" == head + status + tail + c.complaintText;
    SubstringOfConcat(head + status + tail, c.complaintText, "");
    Mail(c.email, "Complaint Status Update", head + status + tail + c.complaintText)
  }

  /** The confirmation sent to the submitter of a new complaint. Its body ends with the
      complaint's description and a closing line. */
  function ConfirmationMail(c: Complaint): (m: Mail)
    ensures m.to == c.email && m.subject == "Complaint Submitted Successfully"
    ensures IsSubstring(c.complaintText, m.text)
  {
    var head := "Dear " + c.name + ",\n\nYour complaint has been submitted successfully.\n\n"
                + "Complaint Details:\n- Type: " + c.complaintType + "\n- Department: " + c.department
                + "\n- Date: " + c.date + "\n- Description: ";
    var tail := "\n\nWe will review your complaint and get back to you soon.\n\nThank you.";
    SubstringOfConcat(head, c.complaintText, tail);
    Mail(c.email, "Complaint Submitted Successfully", head + c.complaintText + tail)
  }

  /** The notification to one admin of the complaint's department. */
  function AdminNotificationMail(to: string, c: Complaint): (m: Mail)
    ensures m.to == to && m.subject == "New Complaint Submitted"
    ensures IsSubstring(c.complaintText, m.text)
  {
    var head := "A new complaint has been submitted in your department (" + c.complaintType + "):\n\n";
    var tail := "\n\nSubmitted by: " + c.name + " (" + c.email + ")";
    SubstringOfConcat(head, c.complaintText, tail);
    Mail(to, "New Complaint Submitted", head + c.complaintText + tail)
  }

  /** `Admin.find({ department })` as a filter. */
  function InDepartment(department: string): Admin -> bool {
    (a: Admin) => a.department == department
  }

  /** The admins notified about `c`: those whose department equals the lower-cased
      complaint type, in collection order. */
  function Recipients(admins: seq<Admin>, c: Complaint): (r: seq<Admin>)
    ensures forall a :: a in r <==> a in admins && a.department == ToLower(c.complaintType)
  {
    Filter(admins, InDepartment(ToLower(c.complaintType)))
  }

  /** One notification per admin, in order. */
  function AdminNotifications(admins: seq<Admin>, c: Complaint): (mails: seq<Mail>)
    ensures |mails| == |admins|
    ensures forall k :: 0 <= k < |mails| ==> mails[k] == AdminNotificationMail(admins[k].email, c)
  {
    seq(|admins|, k requires 0 <= k < |admins| => AdminNotificationMail(admins[k].email, c))
  }

  /** The notifications for a new complaint reach exactly the admins of its department:
      each mail goes to such an admin, and each such admin gets one. */
  lemma NotificationsReachDepartment(admins: seq<Admin>, c: Complaint)
    ensures forall m :: m in AdminNotifications(Recipients(admins, c), c) ==>
              exists a :: a in admins && a.department == ToLower(c.complaintType)
                          && m == AdminNotificationMail(a.email, c)
    ensures forall a :: a in admins && a.department == ToLower(c.complaintType) ==>
              AdminNotificationMail(a.email, c) in AdminNotifications(Recipients(admins, c), c)
  {
    var r := Recipients(admins, c);
    var mails := AdminNotifications(r, c);
    forall m | m in mails
      ensures exists a :: a in admins && a.department == ToLower(c.complaintType)
                          && m == AdminNotificationMail(a.email, c)
    {
      var k :| 0 <= k < |mails| && mails[k] == m;
      var a := r[k];
      assert a in r;
      assert a in admins && a.department == ToLower(c.complaintType) && m == AdminNotificationMail(a.email, c);
    }
    forall a | a in admins && a.department == ToLower(c.complaintType)
      ensures AdminNotificationMail(a.email, c) in mails
    {
      assert a in r;
      var k :| 0 <= k < |r| && r[k] == a;
      assert mails[k] == AdminNotificationMail(a.email, c);
    }
  }

  /** With no admin in the complaint's department there is no notification. */
  lemma NoAdminsNoNotifications(admins: seq<Admin>, c: Complaint)
    requires forall a :: a in admins ==> a.department != ToLower(c.complaintType)
    ensures AdminNotifications(Recipients(admins, c), c) == []
  {
    FilterNone(admins, InDepartment(ToLower(c.complaintType)));
  }

  lemma AdminNotificationsAppend(admins: seq<Admin>, k: nat, c: Complaint)
    requires k < |admins|
    ensures AdminNotifications(admins[..k + 1], c)
            == AdminNotifications(admins[..k], c) + [AdminNotificationMail(admins[k].email, c)]
  {
  }

  // ---------------------------------------------------------------- edits

  /** The body fields of a student edit other than `studentId`, each absent or a string;
      `complaintType` is the body's `type`. */
  datatype ComplaintPatch = ComplaintPatch(name: Option<string>, email: Option<string>,
                                           complaintType: Option<string>, department: Option<string>,
                                           date: Option<string>, complaintText: Option<string>,
                                           status: Option<string>)

  /** `Object.assign(complaint, updateData)`: every field the patch sets is overwritten,
      every other field (the id, the owner and the attachments included) is kept. */
  function ApplyPatch(c: Complaint, p: ComplaintPatch): (r: Complaint)
    ensures r.id == c.id && r.studentId == c.studentId && r.attachments == c.attachments
    ensures r.name == (if p.name.Some? then p.name.value else c.name)
    ensures r.email == (if p.email.Some? then p.email.value else c.email)
    ensures r.complaintType == (if p.complaintType.Some? then p.complaintType.value else c.complaintType)
    ensures r.department == (if p.department.Some? then p.department.value else c.department)
    ensures r.date == (if p.date.Some? then p.date.value else c.date)
    ensures r.complaintText == (if p.complaintText.Some? then p.complaintText.value else c.complaintText)
    ensures r.status == (if p.status.Some? then p.status.value else c.status)
  {
    c.(name := Or(p.name, c.name), email := Or(p.email, c.email),
       complaintType := Or(p.complaintType, c.complaintType), department := Or(p.department, c.department),
       date := Or(p.date, c.date), complaintText := Or(p.complaintText, c.complaintText),
       status := Or(p.status, c.status))
  }

  function Or(v: Option<string>, otherwise: string): string {
    if v.Some? then v.value else otherwise
  }

  /** A patch that sets nothing leaves the complaint as it is. */
  lemma EmptyPatchIsIdentity(c: Complaint)
    ensures ApplyPatch(c, ComplaintPatch(None, None, None, None, None, None, None)) == c
  {
  }

  /** The edit route accepts any status string: a valid complaint patched with only a
      status, allowed or not, still passes validation and carries that status. */
  lemma EditBypassesAllowList(c: Complaint, status: string)
    requires SchemaValid(c)
    ensures var r := ApplyPatch(c, ComplaintPatch(None, None, None, None, None, None, Some(status)));
            SchemaValid(r) && r.status == status
  {
    StatusUnconstrained(c, status);
  }

  /** A patch that blanks a required field makes the save fail. */
  lemma BlankFieldFailsValidation(c: Complaint, p: ComplaintPatch)
    requires p.name == Some("") || p.email == Some("") || p.complaintType == Some("")
             || p.department == Some("") || p.date == Some("") || p.complaintText == Some("")
    ensures !SchemaValid(ApplyPatch(c, p))
  {
  }

  // ---------------------------------------------------------------- queries

  function HasId(id: Id): Complaint -> bool {
    (c: Complaint) => c.id == id
  }

  function OfStudent(studentId: string): Complaint -> bool {
    (c: Complaint) => c.studentId == studentId
  }

  function OfDepartment(department: string): Complaint -> bool {
    (c: Complaint) => c.department == department
  }

  function TypeMatches(pattern: string): Complaint -> bool {
    (c: Complaint) => MatchesIgnoringCase(c.complaintType, pattern)
  }

  ghost predicate HasComplaint(complaints: seq<Complaint>, id: Id) {
    exists k :: 0 <= k < |complaints| && complaints[k].id == id
  }

  /** Stored complaints have distinct ids below the next one and pass the schema. */
  ghost predicate ComplaintsValid(complaints: seq<Complaint>, nextId: Id) {
    && AllBelow(complaints, ComplaintId, nextId) && Distinct(complaints, ComplaintId)
    && forall k :: 0 <= k < |complaints| ==> SchemaValid(complaints[k])
  }

  /** Inserting a valid document under the next id keeps the collection valid. */
  lemma InsertKeepsValid(complaints: seq<Complaint>, nextId: Id, doc: Complaint)
    requires ComplaintsValid(complaints, nextId) && doc.id == nextId && SchemaValid(doc)
    ensures ComplaintsValid(complaints + [doc], nextId + 1)
  {
    AppendKeepsDistinct(complaints, doc, ComplaintId);
    var r := complaints + [doc];
    forall k | 0 <= k < |r| ensures r[k].id < nextId + 1 && SchemaValid(r[k]) {
      if k < |complaints| { assert r[k] == complaints[k]; }
    }
  }

  class ComplaintRouter {
    /** The account store, read for the admins to notify. */
    const accounts: AuthRouter
    var complaints: seq<Complaint>
    var outbox: seq<Mail>
    var nextId: Id

    ghost predicate Valid()
      reads this`complaints, this`nextId
    {
      ComplaintsValid(complaints, nextId)
    }

    constructor (accounts: AuthRouter)
      ensures Valid() && this.accounts == accounts && complaints == [] && outbox == [] && nextId == 0
    {
      this.accounts := accounts;
      complaints, outbox, nextId := [], [], 0;
    }

    /** `Complaint.findById(id)`: the position of the complaint with that id, which is
        the only one with it. */
    method FindById(id: Id) returns (found: Option<nat>)
      requires Valid()
      ensures found.None? <==> !HasComplaint(complaints, id)
      ensures found.Some? ==> found.value < |complaints| && complaints[found.value].id == id
                              && forall k :: 0 <= k < |complaints| && complaints[k].id == id ==> k == found.value
    {
      found := FindFirst(complaints, HasId(id));
      if found.Some? {
        var i := found.value;
        forall k | 0 <= k < |complaints| && complaints[k].id == id ensures k == i {
          DistinctAt(complaints, ComplaintId, k, i);
        }
      }
    }

    /** PUT /:id/status: a status outside the allow-list is refused before any lookup
        (400); an unknown id gives 404; otherwise only that complaint's status changes and
        one mail goes to the complainant. */
    method UpdateStatus(id: Id, status: Field) returns (code: int)
      requires Valid()
      modifies this
      ensures Valid()
      ensures nextId == old(nextId)
      ensures code != OK ==> complaints == old(complaints) && outbox == old(outbox)
      ensures !IsAllowedStatus(status) ==> code == BadRequest
      ensures IsAllowedStatus(status) ==>
        && (!HasComplaint(old(complaints), id) ==> code == NotFound)
        && forall k :: 0 <= k < |old(complaints)| && old(complaints)[k].id == id ==>
             && code == OK
             && complaints == old(complaints)[k := old(complaints)[k].(status := status.value)]
             && outbox == old(outbox) + [StatusUpdateMail(old(complaints)[k], status.value)]
    {
      if !IsAllowedStatus(status) {
        return BadRequest;
      }
      var found := FindById(id);
      if found.None? {
        return NotFound;
      }
      var k := found.value;
      var c := complaints[k];
      var updated := c.(status := status.value);
      StatusUnconstrained(c, status.value);
      UpdateKeepsDistinct(complaints, k, updated, ComplaintId);
      complaints := complaints[k := updated];
      outbox := outbox + [StatusUpdateMail(c, status.value)];
      code := OK;
    }

    /** PUT /:id: an unknown id gives 404; a caller whose `studentId` is not the stored
        owner gets 403; otherwise the patch is applied and saved, which fails (500) when
        it blanks a required field. No mail is sent. */
    method EditByStudent(id: Id, studentId: Field, patch: ComplaintPatch) returns (code: int)
      requires Valid()
      modifies this
      ensures Valid()
      ensures nextId == old(nextId) && outbox == old(outbox)
      ensures code != OK ==> complaints == old(complaints)
      ensures !HasComplaint(old(complaints), id) ==> code == NotFound
      ensures forall k :: 0 <= k < |old(complaints)| && old(complaints)[k].id == id ==>
        if studentId != Some(old(complaints)[k].studentId) then code == Forbidden
        else if !SchemaValid(ApplyPatch(old(complaints)[k], patch)) then code == ServerError
        else code == OK && complaints == old(complaints)[k := ApplyPatch(old(complaints)[k], patch)]
    {
      var found := FindById(id);
      if found.None? {
        return NotFound;
      }
      var k := found.value;
      if studentId != Some(complaints[k].studentId) {
        return Forbidden;
      }
      var updated := ApplyPatch(complaints[k], patch);
      if !SchemaValid(updated) {
        return ServerError;
      }
      UpdateKeepsDistinct(complaints, k, updated, ComplaintId);
      complaints := complaints[k := updated];
      code := OK;
    }

    /** DELETE /:id: an unknown id gives 404, a caller who is not the owner 403;
        otherwise exactly the complaint with that id is removed and every other one
        stays, in order. */
    method DeleteByStudent(id: Id, studentId: Field) returns (code: int)
      requires Valid()
      modifies this
      ensures Valid()
      ensures nextId == old(nextId) && outbox == old(outbox)
      ensures code != OK ==> complaints == old(complaints)
      ensures !HasComplaint(old(complaints), id) ==> code == NotFound
      ensures forall k :: 0 <= k < |old(complaints)| && old(complaints)[k].id == id ==>
        if studentId != Some(old(complaints)[k].studentId) then code == Forbidden
        else code == OK && complaints == old(complaints)[..k] + old(complaints)[k + 1..]
      ensures code == OK ==> forall c :: c in complaints <==> c in old(complaints) && c.id != id
    {
      var found := FindById(id);
      if found.None? {
        return NotFound;
      }
      var k := found.value;
      if studentId != Some(complaints[k].studentId) {
        return Forbidden;
      }
      RemoveAt(complaints, k, ComplaintId);
      RemoveAtKeepsBelow(complaints, k, ComplaintId, nextId);
      complaints := complaints[..k] + complaints[k + 1..];
      code := OK;
    }

    /** POST /: an upload the middleware refuses, or a document that fails validation,
        gives 500 and changes nothing. Otherwise the complaint is stored with status
        "Pending", the submitter gets a confirmation, and every admin of the department
        named by the lower-cased type gets a notification, in collection order. */
    method Create(studentId: Field, name: Field, email: Field, complaintType: Field,
                  department: Field, date: Field, complaintText: Field, files: seq<UploadedFile>)
      returns (code: int)
      requires Valid()
      modifies this
      ensures Valid()
      ensures code != Created ==>
                code == ServerError && complaints == old(complaints) && outbox == old(outbox)
                && nextId == old(nextId)
      ensures !UploadAccepted(files) ==> code == ServerError
      ensures UploadAccepted(files) ==>
        var doc := NewComplaint(old(nextId), studentId, name, email, complaintType, department, date,
                                complaintText, AttachmentsAsBuilt(files));
        if !SchemaValid(doc) then code == ServerError
        else && code == Created
             && complaints == old(complaints) + [doc] && nextId == old(nextId) + 1
             && outbox == old(outbox) + [ConfirmationMail(doc)]
                          + AdminNotifications(Recipients(accounts.admins, doc), doc)
    {
      if !UploadAccepted(files) {
        return ServerError;
      }
      var doc := NewComplaint(nextId, studentId, name, email, complaintType, department, date,
                              complaintText, AttachmentsAsBuilt(files));
      if !SchemaValid(doc) {
        return ServerError;
      }
      InsertKeepsValid(complaints, nextId, doc);
      complaints := complaints + [doc];
      nextId := nextId + 1;
      outbox := outbox + [ConfirmationMail(doc)];
      NotifyAdmins(Recipients(accounts.admins, doc), doc);
      code := Created;
    }

    /** The create handler's loop over the admins found: one `sendMail` each, in order. */
    method NotifyAdmins(admins: seq<Admin>, doc: Complaint)
      modifies this`outbox
      ensures outbox == old(outbox) + AdminNotifications(admins, doc)
    {
      var k := 0;
      while k < |admins|
        invariant 0 <= k <= |admins|
        invariant outbox == old(outbox) + AdminNotifications(admins[..k], doc)
      {
        AdminNotificationsAppend(admins, k, doc);
        outbox := outbox + [AdminNotificationMail(admins[k].email, doc)];
        k := k + 1;
      }
      assert admins[..k] == admins;
    }

    /** GET /student/:studentId: the complaints of that student, in collection order. */
    method ListByStudent(studentId: string) returns (code: int, result: seq<Complaint>)
      ensures code == OK
      ensures result == Filter(complaints, OfStudent(studentId))
      ensures forall c :: c in result <==> c in complaints && c.studentId == studentId
    {
      code, result := OK, Filter(complaints, OfStudent(studentId));
    }

    /** GET /?department=: the complaints of that department, or all of them when the
        query names none. */
    method List(department: Field) returns (code: int, result: seq<Complaint>)
      ensures code == OK
      ensures !Truthy(department) ==> result == complaints
      ensures Truthy(department) ==>
                && result == Filter(complaints, OfDepartment(department.value))
                && forall c :: c in result <==> c in complaints && c.department == department.value
    {
      if Truthy(department) {
        result := Filter(complaints, OfDepartment(department.value));
      } else {
        result := complaints;
      }
      code := OK;
    }

    /** GET /search?type=: the complaints whose type contains the query, ignoring case,
        or all of them when the query is empty. */
    method Search(complaintType: Field) returns (code: int, result: seq<Complaint>)
      ensures code == OK
      ensures !Truthy(complaintType) ==> result == complaints
      ensures Truthy(complaintType) ==>
                && result == Filter(complaints, TypeMatches(complaintType.value))
                && forall c :: c in result <==> c in complaints && MatchesIgnoringCase(c.complaintType, complaintType.value)
    {
      if Truthy(complaintType) {
        result := Filter(complaints, TypeMatches(complaintType.value));
      } else {
        result := complaints;
      }
      code := OK;
    }
  }
}
