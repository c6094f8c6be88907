/** The Complaint document: its fields, the required validators, the attachment
    sub-documents and the `status` default. */
module ComplaintModel {
  import opened Wrappers
  import opened Http
  import opened Tables

  /** An attachment sub-document as the schema declares it. A key the schema does not
      declare (the upload's `data` buffer) is dropped by Mongoose, so it has no field here. */
  datatype Attachment = Attachment(filename: string, contentType: string, path: Option<string>)

  /** A Complaint document; `complaintType` is the schema's `type`. `date` is kept as the
      text it was given and `status` is a plain string at this level. The schema's
      timestamps are not modelled. */
  datatype Complaint = Complaint(id: Id, studentId: string, name: string, email: string,
                                 complaintType: string, department: string, date: string,
                                 complaintText: string, status: string,
                                 attachments: seq<Attachment>)

  function ComplaintId(c: Complaint): Id { c.id }

  /** The schema's default for `status`. */
  const DefaultStatus: string := "Pending"

  /** An attachment passes validation when filename, contentType and path are all set. */
  predicate AttachmentValid(a: Attachment): (ok: bool)
    ensures ok <==> "" !in [a.filename, a.contentType] && a.path != None && a.path != Some("")
  {
    a.filename != "" && a.contentType != "" && a.path.Some? && a.path.value != ""
  }

  /** The document passes the schema's validators: the seven required fields are set and
      every attachment is valid. Nothing constrains `status`. */
  predicate SchemaValid(c: Complaint): (ok: bool)
    ensures ok <==> && "" !in [c.studentId, c.name, c.email, c.complaintType, c.department, c.date,
                               c.complaintText]
                    && forall a :: a in c.attachments ==> AttachmentValid(a)
  {
    && c.studentId != "" && c.name != "" && c.email != "" && c.complaintType != ""
    && c.department != "" && c.date != "" && c.complaintText != ""
    && forall k :: 0 <= k < |c.attachments| ==> AttachmentValid(c.attachments[k])
  }

  /** `new Complaint({...})` from request values: fields as given, `status` from the
      default. Whether it may be saved is decided by SchemaValid. */
  function NewComplaint(id: Id, studentId: Field, name: Field, email: Field, complaintType: Field,
                        department: Field, date: Field, complaintText: Field,
                        attachments: seq<Attachment>): (c: Complaint)
    ensures c.id == id && c.status == DefaultStatus && c.attachments == attachments
    ensures c.studentId == TextOf(studentId) && c.name == TextOf(name) && c.email == TextOf(email)
    ensures c.complaintType == TextOf(complaintType) && c.department == TextOf(department)
    ensures c.date == TextOf(date) && c.complaintText == TextOf(complaintText)
    ensures SchemaValid(c) <==>
              && Truthy(studentId) && Truthy(name) && Truthy(email) && Truthy(complaintType)
              && Truthy(department) && Truthy(date) && Truthy(complaintText)
              && forall k :: 0 <= k < |attachments| ==> AttachmentValid(attachments[k])
  {
    Complaint(id, TextOf(studentId), TextOf(name), TextOf(email), TextOf(complaintType),
              TextOf(department), TextOf(date), TextOf(complaintText), DefaultStatus,
              attachments)
  }

  /** Any status string passes validation: the allow-list lives only in the status route. */
  lemma StatusUnconstrained(c: Complaint, status: string)
    requires SchemaValid(c)
    ensures SchemaValid(c.(status := status))
  {
  }
}
